# TryToDo API data-access layer, in Dafny

This project models the data-access layer of a small to-do HTTP API: the
static class `DatabaseHelper`, which every request handler calls to read and
change two tables, **Items** (tasks) and **Categories** (coloured labels).
Both tables belong to users, identified by an opaque user id string.

The store is a class `Database` holding each table as a sequence of rows whose
ids are distinct (the primary key). The operations that change it are methods
with `modifies` clauses:

- `AddCategory` and `AddItem` append one row under an id the store picks. The
  id is any id not yet in the table; no numbering scheme is fixed.
- `DeleteItem` removes the item with the given id. `DeleteCategory` removes the
  category and, first, every item that references it (the cascade).
- `UpdateCategory` overwrites a category's name and colour. `UpdateItem`
  overwrites all seven mutable fields of an item.
- When the id is absent, delete and update do nothing.

The read-only queries are functions over the row sequences. `GetAll*` return
every row. `Get*ByUserId` return the rows of one owner. `Get*ById` look up one
row, and `Exists*` test for one. They are built from three generic queries in
module `Rows`: `Filter` (LINQ `Where`), `FirstWhere` (`FirstOrDefault`) and
`Any`.

The foreign key from `Items.CategoryId` to `Categories.Id` is declared by the
store's configuration, not by this layer. It is stated as the predicate
`Entities.ReferencesResolve`, and each method says when it keeps it.

Files:
- `wrappers.dfy`: `Option`, used for nullable fields and for "not found".
- `rows.dfy`: generic queries over one table and the primary-key lemmas.
- `entities.dfy`: the `Item` and `Category` rows and the foreign-key predicate.
- `database_helper.dfy`: the queries, the `Database` class and the lemmas about the cascade, the updates and the foreign key.
- `scenarios.dfy`: short call sequences on an empty store with their outcomes.

Two facts about the code:
- The code spells the category lookup `GetCategorybyId`; here it is `GetCategoryById`.
- `AddCategory` stores the colour it is given; defaulting a blank colour is not part of this layer.

## Model

| member | source | states |
|---|---|---|
| `Rows.KeysUnique` | Methods/DatabaseHelper.cs:49 | the primary key `Find` relies on: no two rows of a table share a key |
| `Entities.ReferencesResolve` | Contexts/DatabaseContext.cs:26-29 | the foreign key from Items.CategoryId to Categories.Id: every non-null category reference of an item names an existing category |
| `Entities.Resolves` | Contexts/DatabaseContext.cs:26-29 | a single category reference satisfies the foreign key: it is null or names an existing category |
| `DatabaseHelper.Database.Valid` | Methods/DatabaseHelper.cs:49-66 | the store's invariant: the primary keys of both Items and Categories hold |
| `Rows.Filter` | Methods/DatabaseHelper.cs:153 | `Where(..).ToList()`: a row is in the result exactly when it is in the table and satisfies the predicate; the result is no longer than the table |
| `Rows.FirstWhere` | Methods/DatabaseHelper.cs:161 | `FirstOrDefault(..)`: a returned row is in the table and satisfies the predicate; None exactly when no row does |
| `Rows.Any` | Methods/DatabaseHelper.cs:177 | `Any(..)` is true exactly when some row satisfies the predicate |
| `Rows.AnyIffFirstWhere` | Methods/DatabaseHelper.cs:161-177 | `Any` and `FirstOrDefault` agree on whether a matching row exists |
| `Rows.FindKey` | Methods/DatabaseHelper.cs:49 | `Find` by primary key: a returned row has that key; None exactly when the key is absent |
| `Rows.HasKey` | Methods/DatabaseHelper.cs:177 | true exactly when the key is among the table's keys |
| `Rows.RemoveKey` | Methods/DatabaseHelper.cs:52 | `Remove` of the found row: the key is gone and every other row is kept |
| `Rows.WithKey` | Methods/DatabaseHelper.cs:49 | the rows carrying one key are exactly the table's rows with that key |
| `Rows.UpdateKey` | Methods/DatabaseHelper.cs:106-116 | field assignment on the found entity: same length, the rows with the key are transformed and every other row is unchanged, position by position |
| `Rows.KeyAbove` | Methods/DatabaseHelper.cs:19-20 | a key above every key in the table exists, so the store can always assign a fresh id |
| `Rows.FilterPartition` | Methods/DatabaseHelper.cs:70-71 | a table filtered by a predicate and by its negation splits into two parts whose sizes add up to the table's |
| `Rows.FilterKeepsAll` | Methods/DatabaseHelper.cs:70 | filtering with a predicate every row satisfies returns the table unchanged |
| `Rows.FilterKeepsKeysUnique` | Methods/DatabaseHelper.cs:70-71 | removing rows by a predicate keeps the primary key |
| `Rows.ConsKeepsKeysUnique` | Methods/DatabaseHelper.cs:70-71 | a row whose key is new can join the table without breaking the primary key |
| `Rows.AppendKeepsKeysUnique` | Methods/DatabaseHelper.cs:19-20 | inserting a row under a fresh key keeps the primary key and adds exactly that key |
| `Rows.RemoveKeyKeepsKeysUnique` | Methods/DatabaseHelper.cs:52 | removing a key keeps the primary key of the rest |
| `Rows.UpdateAbsentKey` | Methods/DatabaseHelper.cs:118-121 | an update of an absent key leaves the table as it was |
| `Rows.WithPresentKeyIsOneRow` | Methods/DatabaseHelper.cs:49 | under the primary key, a present key matches exactly one row |
| `Rows.RemovePresentKeyCount` | Methods/DatabaseHelper.cs:49-53 | under the primary key, removing a present key removes exactly one row |
| `Rows.RemoveAbsentKey` | Methods/DatabaseHelper.cs:55-58 | removing an absent key leaves the table as it was |
| `Rows.FindKeyAt` | Methods/DatabaseHelper.cs:161 | under the primary key, looking up a stored row's key returns that very row |
| `Rows.UpdateKeyKeepsKeys` | Methods/DatabaseHelper.cs:106-116 | an update that keeps each row's key keeps the set of keys and the primary key |
| `Rows.FindKeyAfterUpdate` | Methods/DatabaseHelper.cs:106-116 | after an update, looking the key up finds the transformed old row, or nothing when the key was absent |
| `DatabaseHelper.GetAllCategories` | Methods/DatabaseHelper.cs:125-131 | every category row, and only those, whoever owns it |
| `DatabaseHelper.GetAllItems` | Methods/DatabaseHelper.cs:133-139 | every item row, and only those, whoever owns it |
| `DatabaseHelper.GetCategoriesByUserId` | Methods/DatabaseHelper.cs:141-147 | exactly the categories whose owner is the given user |
| `DatabaseHelper.GetItemsByUserId` | Methods/DatabaseHelper.cs:149-155 | exactly the items whose owner is the given user |
| `DatabaseHelper.GetItemById` | Methods/DatabaseHelper.cs:157-163 | a found item has the requested id; None exactly when no item has it |
| `DatabaseHelper.GetCategoryById` | Methods/DatabaseHelper.cs:165-171 | a found category has the requested id; None exactly when no category has it |
| `DatabaseHelper.ExistsItem` | Methods/DatabaseHelper.cs:173-179 | true exactly when some item has the id |
| `DatabaseHelper.ExistsCategory` | Methods/DatabaseHelper.cs:181-187 | true exactly when some category has the id |
| `DatabaseHelper.ExistsItemIffFound` | Methods/DatabaseHelper.cs:157-179 | `ExistsItem(id)` is true exactly when `GetItemById(id)` is non-null |
| `DatabaseHelper.ExistsCategoryIffFound` | Methods/DatabaseHelper.cs:165-187 | `ExistsCategory(id)` is true exactly when the category lookup is non-null |
| `DatabaseHelper.GetItemByIdFindsRow` | Methods/DatabaseHelper.cs:157-163 | under the primary key, looking up a stored item's id returns that item |
| `DatabaseHelper.GetCategoryByIdFindsRow` | Methods/DatabaseHelper.cs:165-171 | under the primary key, looking up a stored category's id returns that category |
| `DatabaseHelper.ItemsOfDistinctUsersDisjoint` | Methods/DatabaseHelper.cs:149-155 | the item lists of two different users share no row |
| `DatabaseHelper.CategoriesOfDistinctUsersDisjoint` | Methods/DatabaseHelper.cs:141-147 | the category lists of two different users share no row |
| `DatabaseHelper.EveryItemListedForItsOwnerOnly` | Methods/DatabaseHelper.cs:133-155 | each row of the full item list appears in its owner's list and in no other user's |
| `DatabaseHelper.EveryCategoryListedForItsOwnerOnly` | Methods/DatabaseHelper.cs:125-147 | each row of the full category list appears in its owner's list and in no other user's |
| `DatabaseHelper.DependentItems` | Methods/DatabaseHelper.cs:70 | exactly the items whose category reference is the given category |
| `DatabaseHelper.ItemsOutside` | Methods/DatabaseHelper.cs:70-71 | exactly the items whose category reference is not the given category |
| `DatabaseHelper.ReplaceFields` | Methods/DatabaseHelper.cs:109-115 | the updated item keeps only its id and owner; name, description, hours, due date, recurrence, priority and category all take the new values |
| `DatabaseHelper.Recolor` | Methods/DatabaseHelper.cs:91-92 | the updated category keeps id and owner and takes the new name and colour |
| `DatabaseHelper.GetItemByIdAfterUpdate` | Methods/DatabaseHelper.cs:106-116 | after an update the item carries the new values in all seven mutable fields (an omitted one is null, so a previous priority is cleared) and keeps its id and owner; an absent id stays absent |
| `DatabaseHelper.GetCategoryByIdAfterUpdate` | Methods/DatabaseHelper.cs:88-93 | after an update the category carries the new name and colour and keeps its id and owner; an absent id stays absent |
| `DatabaseHelper.CascadeCount` | Methods/DatabaseHelper.cs:70-71 | the items kept plus the items removed by the cascade are all the items |
| `DatabaseHelper.CascadeKeepsItemKeysUnique` | Methods/DatabaseHelper.cs:70-71 | the cascade keeps item ids distinct |
| `DatabaseHelper.CascadeKeepsReferencesResolved` | Methods/DatabaseHelper.cs:69-74 | removing a category with its dependent items keeps every remaining category reference resolvable |
| `DatabaseHelper.DeleteWithoutCascadeBreaksReferences` | Methods/DatabaseHelper.cs:74 | removing a category that still has dependent items, without the cascade, leaves a dangling reference |
| `DatabaseHelper.AppendItemReferences` | Methods/DatabaseHelper.cs:35-40 | a new item keeps the foreign key exactly when its category reference is null or names an existing category |
| `DatabaseHelper.AppendCategoryKeepsReferences` | Methods/DatabaseHelper.cs:19 | a new category never breaks the foreign key |
| `DatabaseHelper.UpdateCategoryKeepsReferences` | Methods/DatabaseHelper.cs:91-93 | renaming or recolouring a category never breaks the foreign key |
| `DatabaseHelper.UpdateItemReferences` | Methods/DatabaseHelper.cs:106-121 | overwriting an item keeps the foreign key exactly when the item is absent or its new category reference resolves |
| `DatabaseHelper.Database.constructor` | Contexts/DatabaseContext.cs:8-9 | an empty store, both tables empty, primary keys holding |
| `DatabaseHelper.Database.AddCategory` | Methods/DatabaseHelper.cs:8-21 | exactly one category is appended under an id not in the table, with the given name, colour and owner; no duplicate-name check; items unchanged; the foreign key is kept |
| `DatabaseHelper.Database.AddItem` | Methods/DatabaseHelper.cs:24-42 | exactly one item is appended under a fresh id, owned by `itemUserId`, with the given optional fields and `IsLooped` defaulting to false; categories unchanged; the foreign key is kept exactly when the category reference resolves |
| `DatabaseHelper.Database.DeleteItem` | Methods/DatabaseHelper.cs:45-60 | the item with the id is removed and nothing else; the table shrinks by one when it existed and is unchanged otherwise; afterwards the id does not exist; categories unchanged |
| `DatabaseHelper.Database.DeleteCategory` | Methods/DatabaseHelper.cs:62-82 | when the category exists, it and exactly its dependent items are removed, 1 + (number of dependents) rows in all, and no item references it afterwards; otherwise nothing changes; the foreign key is kept |
| `DatabaseHelper.Database.UpdateCategory` | Methods/DatabaseHelper.cs:84-100 | only name and colour of the matching category change; ids, owner and every other row are unchanged; a missing id changes nothing |
| `DatabaseHelper.Database.UpdateItem` | Methods/DatabaseHelper.cs:102-123 | all seven mutable fields of the matching item are overwritten, omitted ones (`IsLooped` included) with null; id, owner and every other row unchanged; a missing id changes nothing |
| `Scenarios.AddCategoryThenItem` | Methods/DatabaseHelper.cs:8-42 | after adding a category and an item for "u1", the items of "u1" are exactly that one item, with its description and no category |
| `Scenarios.RecurrenceDefaults` | Methods/DatabaseHelper.cs:24-36 | an omitted recurrence flag is stored as false on add and as null on update |
| `Scenarios.ExistsAroundDelete` | Methods/DatabaseHelper.cs:45-53 | an added item exists, and after its deletion it does not |
| `Scenarios.DeleteAbsentItem` | Methods/DatabaseHelper.cs:55-58 | deleting an absent id leaves the table as it was, and the id still does not exist |
| `Scenarios.CascadeKeepsUncategorised` | Methods/DatabaseHelper.cs:70-71 | the cascade over two dependent items and one uncategorised item keeps only the latter |
| `Scenarios.CascadeOfTwo` | Methods/DatabaseHelper.cs:62-76 | deleting a category with two dependent items leaves one item and no category |

## Left out

- Units of work: each call opens its own `DatabaseContext`, commits with `SaveChanges` and closes it. The model applies each operation as one atomic step on the store.
- Transactions, connection failures and concurrent requests (last write wins) are not modelled. The two steps of the cascade are one step here.
- Store errors are not modelled. In particular, `AddItem` or `UpdateItem` with a category id that names no category is rejected by the store's foreign key at `SaveChanges`. The model accepts such a write and states instead, through `ReferencesResolve`, when the foreign key still holds.
- The `Console.WriteLine` messages on the not-found paths: these paths are plain no-ops here.
- `AddCategory` and `AddItem` return the id the store picked; the source returns nothing and the id is only visible on the entity object.
- Ids are unbounded integers. The 32-bit `int` column and the auto-increment numbering are not modelled; any id not in the table may be picked.
- Row order: SQL without `ORDER BY` promises none. The model keeps insertion order, and the query contracts speak only of which rows are returned.
- `DateTime` is an opaque type that is only stored and compared for equality.
- DatabaseHelper.GetItemsByUserId: owner ids are compared exactly here, while the store compares them under the column's collation (MySQL's default for utf8mb4 ignores case and accents), so ids that differ only in case select the same rows in the store but not here.
- DatabaseHelper.GetCategoriesByUserId: owner ids are compared exactly here, while the store compares them under the column's collation, as for `GetItemsByUserId`.
- DatabaseHelper.GetItemById: its contract says the row found has the id, not that it is the first such row. Under the primary key there is only one (`GetItemByIdFindsRow`).
- DatabaseHelper.GetCategoryById: the same as `GetItemById` (`GetCategoryByIdFindsRow`).
- Rows.FirstWhere: its contract does not say the row returned is the first match, only a match.
- DatabaseHelper.GetAllCategories: its contract says which rows are returned and how many, not their order.
- DatabaseHelper.GetAllItems: the same as `GetAllCategories`.
- Contexts/DatabaseContext.cs is not part of this model beyond the foreign key it declares. It holds the EF Core and MySQL configuration.
- Program.cs, Classes/AuthUser.cs and the HTTP request handlers are not part of this model: host bootstrap, the identity library, owner injection, status codes and the missing owner check on update and delete.
