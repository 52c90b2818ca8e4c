/**
 * The `category` table as the repository's SQL statements see it: an
 * ordered sequence of rows (the engine's scan order) with an
 * auto-increment counter kept beside it. Each function gives the meaning
 * of one statement; the lemmas are the facts the repository relies on.
 */
module Table {
  import opened Model

  /** Some row carries `id`. */
  predicate HasId(rows: seq<Category>, id: int)
  {
    exists k :: 0 <= k < |rows| && rows[k].id == id
  }

  /**
   * The table invariant kept by an AUTO_INCREMENT primary key: ids are
   * positive, below the next id to be handed out, and strictly increasing
   * in scan order (so unique).
   */
  predicate Wellformed(rows: seq<Category>, nextId: int)
  {
    && 0 < nextId
    && (forall i, j :: 0 <= i < j < |rows| ==> rows[i].id < rows[j].id)
    && (forall k :: 0 <= k < |rows| ==> 0 < rows[k].id < nextId)
  }

  lemma HasIdCons(rows: seq<Category>, id: int)
    requires rows != []
    ensures HasId(rows, id) <==> rows[0].id == id || HasId(rows[1..], id)
  {
  }

  /** `select id, name from category where id = ?`: the matching rows, in scan order. */
  function Where(rows: seq<Category>, id: int): (matching: seq<Category>)
    ensures forall c :: c in matching <==> c in rows && c.id == id
    ensures matching == [] <==> !HasId(rows, id)
  {
    if rows == [] then []
    else
      HasIdCons(rows, id);
      (if rows[0].id == id then [rows[0]] else []) + Where(rows[1..], id)
  }

  /** `update category set name = ? where id = ?`: renames every matching row, touches nothing else. */
  function UpdateWhere(rows: seq<Category>, id: int, name: string): (updated: seq<Category>)
    ensures |updated| == |rows|
    ensures forall k :: 0 <= k < |rows| ==> updated[k].id == rows[k].id
    ensures forall k :: 0 <= k < |rows| ==>
      updated[k].name == (if rows[k].id == id then name else rows[k].name)
  {
    if rows == [] then []
    else [if rows[0].id == id then rows[0].(name := name) else rows[0]] + UpdateWhere(rows[1..], id, name)
  }

  /** `delete from category where id = ?`: drops every matching row and keeps the rest. */
  function DeleteWhere(rows: seq<Category>, id: int): (remaining: seq<Category>)
    ensures forall c :: c in remaining <==> c in rows && c.id != id
    ensures |remaining| <= |rows|
  {
    if rows == [] then []
    else (if rows[0].id == id then [] else [rows[0]]) + DeleteWhere(rows[1..], id)
  }

  /** The id the counter hands out next is not yet in the table. */
  lemma FreshIdAbsent(rows: seq<Category>, nextId: int)
    requires Wellformed(rows, nextId)
    ensures !HasId(rows, nextId)
  {
  }

  /** Inserting a row under the counter's id and advancing the counter keeps the invariant. */
  lemma InsertWellformed(rows: seq<Category>, nextId: int, name: string)
    requires Wellformed(rows, nextId)
    ensures Wellformed(rows + [Category(nextId, name)], nextId + 1)
  {
  }

  /** Selecting from a table with a row appended: the old matches, then the new row if it matches. */
  lemma {:induction false} WhereAppend(rows: seq<Category>, row: Category, id: int)
    ensures Where(rows + [row], id) == Where(rows, id) + (if row.id == id then [row] else [])
  {
    if rows == [] {
      assert [] + [row] == [row];
      assert Where([row], id) == (if row.id == id then [row] else []) + Where([], id);
    } else {
      var head := if rows[0].id == id then [rows[0]] else [];
      assert (rows + [row])[0] == rows[0];
      assert (rows + [row])[1..] == rows[1..] + [row];
      WhereAppend(rows[1..], row, id);
      calc {
        Where(rows + [row], id);
        head + Where(rows[1..] + [row], id);
        head + (Where(rows[1..], id) + (if row.id == id then [row] else []));
        (head + Where(rows[1..], id)) + (if row.id == id then [row] else []);
      }
    }
  }

  /** On a well-formed table at most one row matches, and it is the row carrying that id. */
  lemma {:induction false} WhereUnique(rows: seq<Category>, nextId: int, k: int)
    requires Wellformed(rows, nextId) && 0 <= k < |rows|
    ensures Where(rows, rows[k].id) == [rows[k]]
  {
    if k == 0 {
      assert !HasId(rows[1..], rows[0].id);
    } else {
      assert Wellformed(rows[1..], nextId);
      assert rows[1..][k - 1] == rows[k];
      WhereUnique(rows[1..], nextId, k - 1);
    }
  }

  /** Updating an id no row carries leaves the table exactly as it was. */
  lemma UpdateMissingUnchanged(rows: seq<Category>, id: int, name: string)
    requires !HasId(rows, id)
    ensures UpdateWhere(rows, id, name) == rows
  {
  }

  /** Updating keeps ids, so it keeps the invariant. */
  lemma UpdateWellformed(rows: seq<Category>, nextId: int, id: int, name: string)
    requires Wellformed(rows, nextId)
    ensures Wellformed(UpdateWhere(rows, id, name), nextId)
  {
  }

  /** After an update of an existing id, selecting it gives exactly that id with the new name. */
  lemma UpdateThenWhere(rows: seq<Category>, nextId: int, id: int, name: string)
    requires Wellformed(rows, nextId) && HasId(rows, id)
    ensures Where(UpdateWhere(rows, id, name), id) == [Category(id, name)]
  {
    var updated := UpdateWhere(rows, id, name);
    UpdateWellformed(rows, nextId, id, name);
    var k :| 0 <= k < |rows| && rows[k].id == id;
    WhereUnique(updated, nextId, k);
    assert updated[k] == Category(id, name);
  }

  /** Deleting keeps the surviving rows in their order, so it keeps the invariant. */
  lemma {:induction false} DeleteWellformed(rows: seq<Category>, nextId: int, id: int)
    requires Wellformed(rows, nextId)
    ensures Wellformed(DeleteWhere(rows, id), nextId)
  {
    if rows != [] {
      assert Wellformed(rows[1..], nextId);
      DeleteWellformed(rows[1..], nextId, id);
      var rest := DeleteWhere(rows[1..], id);
      forall j | 0 <= j < |rest|
        ensures rows[0].id < rest[j].id
      {
        assert rest[j] in rows[1..];
      }
    }
  }

  /** Deleting an id no row carries leaves the table exactly as it was. */
  lemma {:induction false} DeleteMissingUnchanged(rows: seq<Category>, id: int)
    requires !HasId(rows, id)
    ensures DeleteWhere(rows, id) == rows
  {
    if rows != [] {
      HasIdCons(rows, id);
      DeleteMissingUnchanged(rows[1..], id);
    }
  }

  /** After a delete no row carries the id. */
  lemma DeleteRemovesId(rows: seq<Category>, id: int)
    ensures !HasId(DeleteWhere(rows, id), id)
  {
  }

  /** Deleting twice leaves the same table as deleting once. */
  lemma DeleteIdempotent(rows: seq<Category>, id: int)
    ensures DeleteWhere(DeleteWhere(rows, id), id) == DeleteWhere(rows, id)
  {
    DeleteRemovesId(rows, id);
    DeleteMissingUnchanged(DeleteWhere(rows, id), id);
  }

  /** On a well-formed table deleting an existing id removes exactly one row. */
  lemma {:induction false} DeleteRemovesOne(rows: seq<Category>, nextId: int, id: int)
    requires Wellformed(rows, nextId) && HasId(rows, id)
    ensures |DeleteWhere(rows, id)| == |rows| - 1
  {
    HasIdCons(rows, id);
    if rows[0].id == id {
      assert !HasId(rows[1..], id);
      DeleteMissingUnchanged(rows[1..], id);
    } else {
      assert Wellformed(rows[1..], nextId);
      DeleteRemovesOne(rows[1..], nextId, id);
    }
  }
}
