/**
 * The rows of the two tables, Items and Categories, and the foreign key from
 * Items.CategoryId to Categories.Id that the store declares.
 */
module Entities {
  import opened Wrappers
  import opened Rows

  /** A point in time. The data-access layer only stores and returns it. */
  type DateTime(==, !new)

  /** A task. Every field but the id and the owner is nullable. */
  datatype Item = Item(
    id: int,
    name: Option<string>,
    description: Option<string>,
    aprxHours: Option<int>,
    endedAt: Option<DateTime>,
    priority: Option<int>,
    categoryId: Option<int>,
    isLooped: Option<bool>,
    userGuid: string)

  /** A coloured label grouping a user's items. */
  datatype Category = Category(id: int, name: string, color: string, userGuid: string)

  /** The primary key of Items. */
  function ItemKey(item: Item): int { item.id }

  /** The primary key of Categories. */
  function CategoryKey(category: Category): int { category.id }

  /** The foreign key holds: every category an item names is a row of Categories. */
  ghost predicate ReferencesResolve(items: seq<Item>, categories: seq<Category>)
  {
    forall item :: item in items && item.categoryId.Some? ==>
      item.categoryId.value in Keys(categories, CategoryKey)
  }

  /** A category reference the foreign key accepts: none, or a category that exists. */
  ghost predicate Resolves(categoryId: Option<int>, categories: seq<Category>)
  {
    categoryId.Some? ==> categoryId.value in Keys(categories, CategoryKey)
  }
}
