/**
 * CategoryRepository over the abstract `category` table
 * (repository/category_repository_impl.go). The rows and the
 * auto-increment counter are the object's fields; each method is one
 * transaction's worth of change to them.
 */
module Repository {
  import opened Wrappers
  import opened Model
  import opened Table

  /** The message of the error FindById returns on a miss. */
  const NotFoundMessage := "category not found"

  class CategoryRepository {
    /** The table's rows in scan order. */
    var rows: seq<Category>
    /** The AUTO_INCREMENT counter: the id the next insert receives. */
    var nextId: int

    ghost predicate Valid()
      reads this
    {
      Wellformed(rows, nextId)
    }

    /** A freshly truncated table: no rows, the counter back at 1. */
    constructor ()
      ensures Valid()
      ensures rows == [] && nextId == 1
    {
      rows := [];
      nextId := 1;
    }

    /** Save: inserts the name, and returns the argument with only its id replaced by the generated one. */
    method Save(category: Category) returns (saved: Category)
      requires Valid()
      modifies this
      ensures Valid()
      ensures saved == category.(id := old(nextId))
      ensures rows == old(rows) + [saved]
      ensures nextId == old(nextId) + 1
    {
      InsertWellformed(rows, nextId, category.name);
      saved := category.(id := nextId);
      rows := rows + [saved];
      nextId := nextId + 1;
    }

    /** Update: renames the row with the argument's id, if any, and returns the argument whether or not a row matched. */
    method Update(category: Category) returns (updated: Category)
      requires Valid()
      modifies this
      ensures Valid()
      ensures updated == category
      ensures rows == UpdateWhere(old(rows), category.id, category.name)
      ensures nextId == old(nextId)
    {
      UpdateWellformed(rows, nextId, category.id, category.name);
      rows := UpdateWhere(rows, category.id, category.name);
      updated := category;
    }

    /** Delete: removes the row with that id, if any; a missing id is not an error. */
    method Delete(categoryId: int)
      requires Valid()
      modifies this
      ensures Valid()
      ensures rows == DeleteWhere(old(rows), categoryId)
      ensures nextId == old(nextId)
    {
      DeleteWellformed(rows, nextId, categoryId);
      rows := DeleteWhere(rows, categoryId);
    }

    /**
     * FindById: the first row of the result set if there is one and no
     * error; otherwise the zero record and the "category not found" error.
     */
    method FindById(categoryId: int) returns (category: Category, err: Option<string>)
      requires Valid()
      ensures err == None <==> HasId(rows, categoryId)
      ensures err == None ==> category in rows && category.id == categoryId
      ensures err == None ==> forall k :: 0 <= k < |rows| && rows[k].id == categoryId ==> rows[k] == category
      ensures err != None ==> category == ZeroCategory && err == Some(NotFoundMessage)
    {
      var resultSet := Where(rows, categoryId);
      category := ZeroCategory;
      if |resultSet| > 0 {
        category := resultSet[0];
        assert category in resultSet;
        forall k | 0 <= k < |rows| && rows[k].id == categoryId
          ensures rows[k] == category
        {
          WhereUnique(rows, nextId, k);
        }
        err := None;
      } else {
        err := Some(NotFoundMessage);
      }
    }

    /** FindAll: every row, scanned one at a time and appended, in table order. */
    method FindAll() returns (categories: seq<Category>)
      ensures categories == rows
      ensures |categories| == |rows|
    {
      categories := [];
      var i := 0;
      while i < |rows|
        invariant 0 <= i <= |rows|
        invariant categories == rows[..i]
      {
        categories := categories + [rows[i]];
        i := i + 1;
      }
    }
  }

  /**
   * The round trip the tests rely on: after a save, looking up the id it
   * returned gives exactly the saved row and nothing else.
   */
  lemma SaveThenFindSelectsSaved(rows: seq<Category>, nextId: int, name: string)
    requires Wellformed(rows, nextId)
    ensures Where(rows + [Category(nextId, name)], nextId) == [Category(nextId, name)]
  {
    WhereAppend(rows, Category(nextId, name), nextId);
    FreshIdAbsent(rows, nextId);
  }
}
