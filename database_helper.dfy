/**
 * The data-access layer of the to-do API: one store holding the Items and
 * Categories tables, the operations that change it (add, delete, cascading
 * delete, update) and the read-only queries over it (all rows, rows of one
 * owner, row by id, existence by id).
 */
module DatabaseHelper {
  import opened Wrappers
  import opened Rows
  import opened Entities

  // ---------------------------------------------------------------------------
  // Queries: side-effect-free reads of the tables.

  /** Every category, whoever owns it, in table order. */
  function GetAllCategories(categories: seq<Category>): (r: seq<Category>)
    ensures |r| == |categories|
    ensures forall c :: c in r <==> c in categories
  {
    categories
  }

  /** Every item, whoever owns it, in table order. */
  function GetAllItems(items: seq<Item>): (r: seq<Item>)
    ensures |r| == |items|
    ensures forall item :: item in r <==> item in items
  {
    items
  }

  /** The categories owned by `userId`, in table order. */
  function GetCategoriesByUserId(categories: seq<Category>, userId: string): (r: seq<Category>)
    ensures |r| <= |categories|
    ensures forall c :: c in r <==> c in categories && c.userGuid == userId
  {
    Filter(categories, (c: Category) => c.userGuid == userId)
  }

  /** The items owned by `userId`, in table order. */
  function GetItemsByUserId(items: seq<Item>, userId: string): (r: seq<Item>)
    ensures |r| <= |items|
    ensures forall item :: item in r <==> item in items && item.userGuid == userId
  {
    Filter(items, (item: Item) => item.userGuid == userId)
  }

  /** The item with id `id`, or None when there is none. */
  function GetItemById(items: seq<Item>, id: int): (r: Option<Item>)
    ensures r.Some? ==> r.value in items && r.value.id == id
    ensures r.None? <==> forall item :: item in items ==> item.id != id
  {
    FindKey(items, ItemKey, id)
  }

  /** The category with id `id`, or None when there is none. */
  function GetCategoryById(categories: seq<Category>, id: int): (r: Option<Category>)
    ensures r.Some? ==> r.value in categories && r.value.id == id
    ensures r.None? <==> forall c :: c in categories ==> c.id != id
  {
    FindKey(categories, CategoryKey, id)
  }

  /** Whether an item with id `id` exists. */
  function ExistsItem(items: seq<Item>, id: int): (r: bool)
    ensures r <==> exists item :: item in items && item.id == id
  {
    HasKey(items, ItemKey, id)
  }

  /** Whether a category with id `id` exists. */
  function ExistsCategory(categories: seq<Category>, id: int): (r: bool)
    ensures r <==> exists c :: c in categories && c.id == id
  {
    HasKey(categories, CategoryKey, id)
  }

  /** An item exists exactly when looking it up finds it. */
  lemma ExistsItemIffFound(items: seq<Item>, id: int)
    ensures ExistsItem(items, id) <==> GetItemById(items, id).Some?
  {
    AnyIffFirstWhere(items, (x: Item) => ItemKey(x) == id);
  }

  /** A category exists exactly when looking it up finds it. */
  lemma ExistsCategoryIffFound(categories: seq<Category>, id: int)
    ensures ExistsCategory(categories, id) <==> GetCategoryById(categories, id).Some?
  {
    AnyIffFirstWhere(categories, (x: Category) => CategoryKey(x) == id);
  }

  /** Under the primary key, looking up the id of a stored item returns that very row. */
  lemma GetItemByIdFindsRow(items: seq<Item>, i: nat)
    requires KeysUnique(items, ItemKey)
    requires i < |items|
    ensures GetItemById(items, items[i].id) == Some(items[i])
  {
    FindKeyAt(items, ItemKey, i);
  }

  /** Under the primary key, looking up the id of a stored category returns that very row. */
  lemma GetCategoryByIdFindsRow(categories: seq<Category>, i: nat)
    requires KeysUnique(categories, CategoryKey)
    requires i < |categories|
    ensures GetCategoryById(categories, categories[i].id) == Some(categories[i])
  {
    FindKeyAt(categories, CategoryKey, i);
  }

  /** Two different owners never see the same item. */
  lemma ItemsOfDistinctUsersDisjoint(items: seq<Item>, u1: string, u2: string)
    requires u1 != u2
    ensures forall item :: item in GetItemsByUserId(items, u1) ==> item !in GetItemsByUserId(items, u2)
  {
  }

  /** Two different owners never see the same category. */
  lemma CategoriesOfDistinctUsersDisjoint(categories: seq<Category>, u1: string, u2: string)
    requires u1 != u2
    ensures forall c :: c in GetCategoriesByUserId(categories, u1) ==> c !in GetCategoriesByUserId(categories, u2)
  {
  }

  /** Every item of the whole table is listed for its own owner, and for nobody else. */
  lemma EveryItemListedForItsOwnerOnly(items: seq<Item>, item: Item, userId: string)
    requires item in GetAllItems(items)
    ensures item in GetItemsByUserId(items, userId) <==> userId == item.userGuid
  {
  }

  /** Every category of the whole table is listed for its own owner, and for nobody else. */
  lemma EveryCategoryListedForItsOwnerOnly(categories: seq<Category>, c: Category, userId: string)
    requires c in GetAllCategories(categories)
    ensures c in GetCategoriesByUserId(categories, userId) <==> userId == c.userGuid
  {
  }

  // ---------------------------------------------------------------------------
  // What the changes do to the tables.

  /** The items that reference category `categoryId`: those the cascade removes. */
  function DependentItems(items: seq<Item>, categoryId: int): (r: seq<Item>)
    ensures forall item :: item in r <==> item in items && item.categoryId == Some(categoryId)
  {
    Filter(items, (item: Item) => item.categoryId == Some(categoryId))
  }

  /** The items that do not reference category `categoryId`: those the cascade keeps. */
  function ItemsOutside(items: seq<Item>, categoryId: int): (r: seq<Item>)
    ensures forall item :: item in r <==> item in items && item.categoryId != Some(categoryId)
  {
    Filter(items, (item: Item) => item.categoryId != Some(categoryId))
  }

  /** The overwrite an item update performs: all seven mutable fields take the new values. */
  function ReplaceFields(newName: string, newDescription: Option<string>, newAprxHours: Option<int>,
                         newEndedAt: Option<DateTime>, newIsLooped: Option<bool>, newPriority: Option<int>,
                         newCategoryId: Option<int>): (f: Item -> Item)
    ensures forall item :: f(item) == Item(item.id, Some(newName), newDescription, newAprxHours,
                                           newEndedAt, newPriority, newCategoryId, newIsLooped, item.userGuid)
  {
    (item: Item) => item.(name := Some(newName), description := newDescription, aprxHours := newAprxHours,
                          endedAt := newEndedAt, isLooped := newIsLooped, priority := newPriority,
                          categoryId := newCategoryId)
  }

  /** The overwrite a category update performs: name and colour take the new values. */
  function Recolor(newName: string, newColor: string): (f: Category -> Category)
    ensures forall c :: f(c) == Category(c.id, newName, newColor, c.userGuid)
  {
    (c: Category) => c.(name := newName, color := newColor)
  }

  /**
   * After an item update the item has the new values in all seven mutable
   * fields, an omitted optional one being null, and keeps its id and owner.
   */
  lemma GetItemByIdAfterUpdate(items: seq<Item>, itemId: int, newName: string, newDescription: Option<string>,
                               newAprxHours: Option<int>, newEndedAt: Option<DateTime>, newIsLooped: Option<bool>,
                               newPriority: Option<int>, newCategoryId: Option<int>)
    requires KeysUnique(items, ItemKey)
    ensures GetItemById(UpdateKey(items, ItemKey, itemId,
                                  ReplaceFields(newName, newDescription, newAprxHours, newEndedAt,
                                                newIsLooped, newPriority, newCategoryId)), itemId) ==
              match GetItemById(items, itemId)
              case Some(item) => Some(Item(item.id, Some(newName), newDescription, newAprxHours, newEndedAt,
                                           newPriority, newCategoryId, newIsLooped, item.userGuid))
              case None => None
  {
    FindKeyAfterUpdate(items, ItemKey, itemId,
                       ReplaceFields(newName, newDescription, newAprxHours, newEndedAt,
                                     newIsLooped, newPriority, newCategoryId));
  }

  /** After a category update the category has the new name and colour and keeps its id and owner. */
  lemma GetCategoryByIdAfterUpdate(categories: seq<Category>, categoryId: int, newName: string, newColor: string)
    requires KeysUnique(categories, CategoryKey)
    ensures GetCategoryById(UpdateKey(categories, CategoryKey, categoryId, Recolor(newName, newColor)), categoryId) ==
              match GetCategoryById(categories, categoryId)
              case Some(c) => Some(Category(c.id, newName, newColor, c.userGuid))
              case None => None
  {
    FindKeyAfterUpdate(categories, CategoryKey, categoryId, Recolor(newName, newColor));
  }

  /** The cascade splits the items: kept plus removed is all of them. */
  lemma CascadeCount(items: seq<Item>, categoryId: int)
    ensures |items| == |ItemsOutside(items, categoryId)| + |DependentItems(items, categoryId)|
  {
    FilterPartition(items, (item: Item) => item.categoryId != Some(categoryId),
                           (item: Item) => item.categoryId == Some(categoryId));
  }

  /** The cascade keeps the item ids distinct. */
  lemma CascadeKeepsItemKeysUnique(items: seq<Item>, categoryId: int)
    requires KeysUnique(items, ItemKey)
    ensures KeysUnique(ItemsOutside(items, categoryId), ItemKey)
  {
    FilterKeepsKeysUnique(items, (item: Item) => item.categoryId != Some(categoryId), ItemKey);
  }

  /** Removing a category together with its dependent items keeps the foreign key intact. */
  lemma CascadeKeepsReferencesResolved(items: seq<Item>, categories: seq<Category>, categoryId: int)
    requires ReferencesResolve(items, categories)
    ensures ReferencesResolve(ItemsOutside(items, categoryId), RemoveKey(categories, CategoryKey, categoryId))
  {
  }

  /** Removing a category that still has dependent items, without the cascade, would break the foreign key. */
  lemma DeleteWithoutCascadeBreaksReferences(items: seq<Item>, categories: seq<Category>, categoryId: int)
    requires DependentItems(items, categoryId) != []
    ensures !ReferencesResolve(items, RemoveKey(categories, CategoryKey, categoryId))
  {
    var item := DependentItems(items, categoryId)[0];
    assert item in DependentItems(items, categoryId);
  }

  /** A new item keeps the foreign key intact exactly when its category reference resolves. */
  lemma AppendItemReferences(items: seq<Item>, categories: seq<Category>, item: Item)
    requires ReferencesResolve(items, categories)
    ensures ReferencesResolve(items + [item], categories) <==> Resolves(item.categoryId, categories)
  {
  }

  /** A new category never breaks the foreign key. */
  lemma AppendCategoryKeepsReferences(items: seq<Item>, categories: seq<Category>, c: Category)
    requires ReferencesResolve(items, categories)
    ensures ReferencesResolve(items, categories + [c])
  {
  }

  /** Renaming or recolouring a category keeps the foreign key intact. */
  lemma UpdateCategoryKeepsReferences(items: seq<Item>, categories: seq<Category>, categoryId: int,
                                      newName: string, newColor: string)
    requires ReferencesResolve(items, categories)
    ensures ReferencesResolve(items, UpdateKey(categories, CategoryKey, categoryId, Recolor(newName, newColor)))
  {
    UpdateKeyKeepsKeys(categories, CategoryKey, categoryId, Recolor(newName, newColor));
  }

  /**
   * Overwriting an existing item keeps the foreign key intact exactly when its
   * new category reference resolves; overwriting an absent one changes nothing.
   */
  lemma UpdateItemReferences(items: seq<Item>, categories: seq<Category>, itemId: int,
                             f: Item -> Item, newCategoryId: Option<int>)
    requires ReferencesResolve(items, categories)
    requires forall item :: f(item).id == item.id && f(item).categoryId == newCategoryId
    ensures ReferencesResolve(UpdateKey(items, ItemKey, itemId, f), categories) <==>
              !ExistsItem(items, itemId) || Resolves(newCategoryId, categories)
  {
  }

  // ---------------------------------------------------------------------------
  // The store and the operations that change it.

  /** The two tables. Each operation is one unit of work on them. */
  class Database {
    var items: seq<Item>
    var categories: seq<Category>

    /** The primary keys of both tables hold. */
    ghost predicate Valid()
      reads this
    {
      KeysUnique(items, ItemKey) && KeysUnique(categories, CategoryKey)
    }

    /** An empty store. */
    constructor ()
      ensures Valid()
      ensures items == [] && categories == []
    {
      items := [];
      categories := [];
    }

    /** Inserts a category under a fresh id chosen by the store; no duplicate-name check. */
    method AddCategory(categoryName: string, categoryColor: string, categoryUserId: string) returns (id: int)
      requires Valid()
      modifies this
      ensures Valid()
      ensures id !in Keys(old(categories), CategoryKey)
      ensures categories == old(categories) + [Category(id, categoryName, categoryColor, categoryUserId)]
      ensures items == old(items)
      ensures old(ReferencesResolve(items, categories)) ==> ReferencesResolve(items, categories)
    {
      ghost var above := KeyAbove(categories, CategoryKey);
      id :| id !in Keys(categories, CategoryKey);
      var category := Category(id, categoryName, categoryColor, categoryUserId);
      AppendKeepsKeysUnique(categories, category, CategoryKey);
      if ReferencesResolve(items, categories) {
        AppendCategoryKeepsReferences(items, categories, category);
      }
      categories := categories + [category];
    }

    /** Inserts an item under a fresh id chosen by the store; `IsLooped` defaults to false. */
    method AddItem(itemName: string, itemUserId: string, itemDescription: Option<string> := None,
                   categoryId: Option<int> := None, itemAprxHours: Option<int> := None,
                   itemEndedAt: Option<DateTime> := None, itemIsLooped: Option<bool> := Some(false),
                   itemPriority: Option<int> := None) returns (id: int)
      requires Valid()
      modifies this
      ensures Valid()
      ensures id !in Keys(old(items), ItemKey)
      ensures items == old(items) + [Item(id, Some(itemName), itemDescription, itemAprxHours, itemEndedAt,
                                          itemPriority, categoryId, itemIsLooped, itemUserId)]
      ensures categories == old(categories)
      ensures old(ReferencesResolve(items, categories)) ==>
                (ReferencesResolve(items, categories) <==> Resolves(categoryId, categories))
    {
      ghost var above := KeyAbove(items, ItemKey);
      id :| id !in Keys(items, ItemKey);
      var item := Item(id, Some(itemName), itemDescription, itemAprxHours, itemEndedAt,
                       itemPriority, categoryId, itemIsLooped, itemUserId);
      AppendKeepsKeysUnique(items, item, ItemKey);
      if ReferencesResolve(items, categories) {
        AppendItemReferences(items, categories, item);
      }
      items := items + [item];
    }

    /** Removes the item with id `itemId`; does nothing when there is none. */
    method DeleteItem(itemId: int)
      requires Valid()
      modifies this
      ensures Valid()
      ensures items == RemoveKey(old(items), ItemKey, itemId)
      ensures categories == old(categories)
      ensures !ExistsItem(items, itemId)
      ensures |items| == if old(ExistsItem(items, itemId)) then |old(items)| - 1 else |old(items)|
      ensures !old(ExistsItem(items, itemId)) ==> items == old(items)
      ensures old(ReferencesResolve(items, categories)) ==> ReferencesResolve(items, categories)
    {
      var item := GetItemById(items, itemId);
      if item.Some? {
        RemovePresentKeyCount(items, ItemKey, itemId);
        RemoveKeyKeepsKeysUnique(items, ItemKey, itemId);
        items := RemoveKey(items, ItemKey, itemId);
      } else {
        RemoveAbsentKey(items, ItemKey, itemId);
      }
    }

    /**
     * Removes the category with id `categoryId` together with every item that
     * references it; does nothing when there is no such category.
     */
    method DeleteCategory(categoryId: int)
      requires Valid()
      modifies this
      ensures Valid()
      ensures old(ExistsCategory(categories, categoryId)) ==>
                items == ItemsOutside(old(items), categoryId) &&
                categories == RemoveKey(old(categories), CategoryKey, categoryId)
      ensures !old(ExistsCategory(categories, categoryId)) ==>
                items == old(items) && categories == old(categories)
      ensures !ExistsCategory(categories, categoryId)
      ensures old(ExistsCategory(categories, categoryId)) ==>
                |old(items)| + |old(categories)| ==
                |items| + |categories| + 1 + |DependentItems(old(items), categoryId)|
      ensures old(ExistsCategory(categories, categoryId)) ==>
                forall item :: item in items ==> item.categoryId != Some(categoryId)
      ensures old(ReferencesResolve(items, categories)) ==> ReferencesResolve(items, categories)
    {
      var category := GetCategoryById(categories, categoryId);
      if category.Some? {
        CascadeCount(items, categoryId);
        CascadeKeepsItemKeysUnique(items, categoryId);
        RemovePresentKeyCount(categories, CategoryKey, categoryId);
        RemoveKeyKeepsKeysUnique(categories, CategoryKey, categoryId);
        if ReferencesResolve(items, categories) {
          CascadeKeepsReferencesResolved(items, categories, categoryId);
        }
        items := ItemsOutside(items, categoryId);
        categories := RemoveKey(categories, CategoryKey, categoryId);
      }
    }

    /** Overwrites name and colour of the category with id `categoryId`; does nothing when there is none. */
    method UpdateCategory(categoryId: int, newName: string, newColor: string)
      requires Valid()
      modifies this
      ensures Valid()
      ensures categories == UpdateKey(old(categories), CategoryKey, categoryId, Recolor(newName, newColor))
      ensures items == old(items)
      ensures Keys(categories, CategoryKey) == old(Keys(categories, CategoryKey))
      ensures GetCategoryById(categories, categoryId) ==
                match old(GetCategoryById(categories, categoryId))
                case Some(c) => Some(Category(c.id, newName, newColor, c.userGuid))
                case None => None
      ensures old(ReferencesResolve(items, categories)) ==> ReferencesResolve(items, categories)
    {
      var category := GetCategoryById(categories, categoryId);
      var f := Recolor(newName, newColor);
      UpdateKeyKeepsKeys(categories, CategoryKey, categoryId, f);
      GetCategoryByIdAfterUpdate(categories, categoryId, newName, newColor);
      if ReferencesResolve(items, categories) {
        UpdateCategoryKeepsReferences(items, categories, categoryId, newName, newColor);
      }
      if category.Some? {
        categories := UpdateKey(categories, CategoryKey, categoryId, f);
      } else {
        UpdateAbsentKey(categories, CategoryKey, categoryId, f);
      }
    }

    /**
     * Overwrites all seven mutable fields of the item with id `itemId`; an
     * omitted optional argument, `IsLooped` included, becomes null. Does
     * nothing when there is no such item.
     */
    method UpdateItem(itemId: int, newName: string, newDescription: Option<string> := None,
                      newAprxHours: Option<int> := None, newEndedAt: Option<DateTime> := None,
                      newIsLooped: Option<bool> := None, newPriority: Option<int> := None,
                      newCategoryId: Option<int> := None)
      requires Valid()
      modifies this
      ensures Valid()
      ensures items == UpdateKey(old(items), ItemKey, itemId,
                                 ReplaceFields(newName, newDescription, newAprxHours, newEndedAt,
                                               newIsLooped, newPriority, newCategoryId))
      ensures categories == old(categories)
      ensures Keys(items, ItemKey) == old(Keys(items, ItemKey))
      ensures GetItemById(items, itemId) ==
                match old(GetItemById(items, itemId))
                case Some(item) => Some(Item(item.id, Some(newName), newDescription, newAprxHours, newEndedAt,
                                             newPriority, newCategoryId, newIsLooped, item.userGuid))
                case None => None
      ensures old(ReferencesResolve(items, categories)) ==>
                (ReferencesResolve(items, categories) <==>
                   !old(ExistsItem(items, itemId)) || Resolves(newCategoryId, categories))
    {
      var item := GetItemById(items, itemId);
      var f := ReplaceFields(newName, newDescription, newAprxHours, newEndedAt,
                             newIsLooped, newPriority, newCategoryId);
      UpdateKeyKeepsKeys(items, ItemKey, itemId, f);
      GetItemByIdAfterUpdate(items, itemId, newName, newDescription, newAprxHours, newEndedAt,
                             newIsLooped, newPriority, newCategoryId);
      if ReferencesResolve(items, categories) {
        UpdateItemReferences(items, categories, itemId, f, newCategoryId);
      }
      if item.Some? {
        items := UpdateKey(items, ItemKey, itemId, f);
      } else {
        UpdateAbsentKey(items, ItemKey, itemId, f);
      }
    }
  }
}
