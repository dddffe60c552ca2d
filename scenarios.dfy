/**
 * Short sequences of calls against an empty store, each with the outcome the
 * data-access layer must produce; they are proved from the operations'
 * contracts alone.
 */
module Scenarios {
  import opened Wrappers
  import opened Rows
  import opened Entities
  import opened DatabaseHelper

  /**
   * A category and an item are added for "u1"; listing the items of "u1"
   * returns exactly that item, with its description and without a category.
   */
  method AddCategoryThenItem() returns (listed: seq<Item>)
    ensures |listed| == 1
    ensures listed[0].name == Some("Complete project")
    ensures listed[0].description == Some("Finish the report")
    ensures listed[0].categoryId == None && listed[0].userGuid == "u1"
  {
    var db := new Database();
    var categoryId := db.AddCategory("Work", "Blue", "u1");
    var itemId := db.AddItem("Complete project", "u1", Some("Finish the report"));
    ghost var item := db.items[0];
    assert db.items == [item];
    listed := GetItemsByUserId(db.items, "u1");
    assert item in listed;
    assert [item][1..] == [];
  }

  /**
   * Omitting the recurrence flag stores false when an item is added, but
   * clears it to null when an item is updated.
   */
  method RecurrenceDefaults() returns (added: Option<bool>, updated: Option<bool>)
    ensures added == Some(false)
    ensures updated == None
  {
    var db := new Database();
    var id := db.AddItem("Water the plants", "u1");
    GetItemByIdFindsRow(db.items, 0);
    var found := GetItemById(db.items, id);
    added := found.value.isLooped;
    db.UpdateItem(id, "Water the plants weekly");
    found := GetItemById(db.items, id);
    updated := found.value.isLooped;
  }

  /** An item exists after it is added and no longer exists after it is deleted. */
  method ExistsAroundDelete() returns (before: bool, after: bool)
    ensures before
    ensures !after
  {
    var db := new Database();
    var id := db.AddItem("Send the invoice", "u2");
    before := ExistsItem(db.items, id);
    assert db.items[0] in db.items;
    db.DeleteItem(id);
    after := ExistsItem(db.items, id);
  }

  /** Deleting an id no item has completes without effect, and that id still does not exist. */
  method DeleteAbsentItem() returns (count: nat, existsAfter: bool)
    ensures count == 1
    ensures !existsAfter
  {
    var db := new Database();
    var id := db.AddItem("Book the venue", "u1");
    db.DeleteItem(id + 1);
    count := |db.items|;
    existsAfter := ExistsItem(db.items, id + 1);
  }

  /** The cascade over a table of two dependent items and one uncategorised item keeps the latter only. */
  lemma CascadeKeepsUncategorised(a: Item, b: Item, c: Item, work: int)
    requires a.categoryId == Some(work) && b.categoryId == Some(work)
    requires c.categoryId == None
    ensures ItemsOutside([a, b, c], work) == [c]
  {
    var keep := (item: Item) => item.categoryId != Some(work);
    assert [c][1..] == [];
    assert Filter([c], keep) == [c];
    assert [b, c][1..] == [c];
    assert Filter([b, c], keep) == [c];
    assert [a, b, c][1..] == [b, c];
    assert Filter([a, b, c], keep) == [c];
  }

  /**
   * Deleting a category with two dependent items removes three rows and
   * leaves the item that has no category.
   */
  method CascadeOfTwo() returns (itemsLeft: nat, categoriesLeft: nat)
    ensures itemsLeft == 1
    ensures categoriesLeft == 0
  {
    var db := new Database();
    var work := db.AddCategory("Work", "Blue", "u1");
    var first := db.AddItem("Draft the report", "u1", None, Some(work));
    var second := db.AddItem("Review the report", "u1", None, Some(work));
    var third := db.AddItem("Buy groceries", "u1");
    assert db.categories[0] in db.categories;
    CascadeKeepsUncategorised(db.items[0], db.items[1], db.items[2], work);
    db.DeleteCategory(work);
    itemsLeft := |db.items|;
    categoriesLeft := |db.categories|;
  }
}
