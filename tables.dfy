/**
 * An in-memory stand-in for one MongoDB collection, with the operations the
 * CRUD modules use: insert_one, find (a cursor in natural order), find_one,
 * update_one with an update operator, and delete_one by `_id`. The update
 * operators themselves (`$set` per collection, `$addToSet`, `$pull`) are
 * functions on documents; the array ones are defined here.
 */
module Tables {
  import opened Outcomes
  import opened ObjectIds

  /** One stored document together with its `_id`. */
  datatype Row<D> = Row(id: ObjectId, doc: D)

  predicate Distinct(s: seq<ObjectId>)
  {
    forall i, j :: 0 <= i < j < |s| ==> s[i] != s[j]
  }

  /** `s` with every occurrence of `x` taken out, the rest in order. */
  function Without(s: seq<ObjectId>, x: ObjectId): (r: seq<ObjectId>)
    ensures forall y :: y in r <==> y in s && y != x
    ensures Distinct(s) ==> Distinct(r)
  {
    if s == [] then []
    else if s[0] == x then Without(s[1..], x)
    else
      assert Distinct(s) ==> s[0] !in s[1..] by {
        forall j | 0 <= j < |s[1..]|
          ensures Distinct(s) ==> s[1..][j] != s[0]
        {
          assert s[1..][j] == s[j + 1];
        }
      }
      [s[0]] + Without(s[1..], x)
  }

  /** The rows of `ids`, in that order, whose documents satisfy `p`. */
  function Select<D>(ids: seq<ObjectId>, docs: map<ObjectId, D>, p: D -> bool): (rows: seq<Row<D>>)
    requires forall id :: id in ids ==> id in docs
    ensures forall i :: 0 <= i < |rows| ==> rows[i].id in ids && rows[i].doc == docs[rows[i].id] && p(rows[i].doc)
    ensures forall id :: id in ids && p(docs[id]) ==> Row(id, docs[id]) in rows
  {
    if ids == [] then []
    else
      var head := if p(docs[ids[0]]) then [Row(ids[0], docs[ids[0]])] else [];
      head + Select(ids[1..], docs, p)
  }

  /** The first row Select returns stands before every other id whose document satisfies `p`. */
  lemma {:induction false} SelectFirst<D>(ids: seq<ObjectId>, docs: map<ObjectId, D>, p: D -> bool)
    requires forall id :: id in ids ==> id in docs
    requires Select(ids, docs, p) != []
    ensures exists k :: 0 <= k < |ids| && ids[k] == Select(ids, docs, p)[0].id
                        && forall j :: 0 <= j < k ==> !p(docs[ids[j]])
  {
    if !p(docs[ids[0]]) {
      SelectFirst(ids[1..], docs, p);
      var k :| 0 <= k < |ids[1..]| && ids[1..][k] == Select(ids[1..], docs, p)[0].id
               && forall j :: 0 <= j < k ==> !p(docs[ids[1..][j]]);
      assert ids[k + 1] == Select(ids, docs, p)[0].id;
      forall j | 0 <= j < k + 1
        ensures !p(docs[ids[j]])
      {
        if j > 0 { assert ids[j] == ids[1..][j - 1]; }
      }
    } else {
      assert ids[0] == Select(ids, docs, p)[0].id;
    }
  }

  /** `$addToSet`: append `x` unless it is already there. */
  function AddToSet(s: seq<string>, x: string): (r: seq<string>)
  {
    if x in s then s else s + [x]
  }

  /** `$pull`: remove every element equal to `x`, keeping the rest in order. */
  function Pull(s: seq<string>, x: string): (r: seq<string>)
  {
    if s == [] then []
    else if s[0] == x then Pull(s[1..], x)
    else [s[0]] + Pull(s[1..], x)
  }

  lemma AddToSetContains(s: seq<string>, x: string)
    ensures x in AddToSet(s, x)
    ensures forall y :: y in AddToSet(s, x) <==> y in s || y == x
    ensures multiset(AddToSet(s, x))[x] == (if x in s then multiset(s)[x] else 1)
  {
  }

  /** Adding the same element twice is the same as adding it once. */
  lemma AddToSetIdempotent(s: seq<string>, x: string)
    ensures AddToSet(AddToSet(s, x), x) == AddToSet(s, x)
  {
  }

  /** `$pull` leaves no `x` behind and keeps every other element with its multiplicity. */
  lemma {:induction false} PullRemovesAll(s: seq<string>, x: string)
    ensures x !in Pull(s, x)
    ensures forall y :: y != x ==> multiset(Pull(s, x))[y] == multiset(s)[y]
  {
    if s != [] {
      PullRemovesAll(s[1..], x);
      assert s == [s[0]] + s[1..];
    }
  }

  /** Pulling `x` twice is the same as pulling it once. */
  lemma {:induction false} PullIdempotent(s: seq<string>, x: string)
    ensures Pull(Pull(s, x), x) == Pull(s, x)
  {
    if s != [] {
      PullIdempotent(s[1..], x);
    }
  }

  /** Liking then unliking leaves what unliking alone would have left. */
  lemma {:induction false} PullAfterAddToSet(s: seq<string>, x: string)
    ensures Pull(AddToSet(s, x), x) == Pull(s, x)
  {
    if x !in s {
      PullAppend(s, [x], x);
    }
  }

  /** `$pull` works element by element: pulling from two halves and joining them is pulling from the whole, so order is kept. */
  lemma {:induction false} PullAppend(s: seq<string>, t: seq<string>, x: string)
    ensures Pull(s + t, x) == Pull(s, x) + Pull(t, x)
  {
    if s != [] {
      assert (s + t)[1..] == s[1..] + t;
      PullAppend(s[1..], t, x);
    } else {
      assert s + t == t;
    }
  }

  /** A MongoDB collection: documents keyed by `_id`, with the natural (insertion) order of the ids. */
  class Table<D(==)> {
    var docs: map<ObjectId, D>
    var order: seq<ObjectId>

    ghost predicate Valid()
      reads this
    {
      Distinct(order) && forall id :: id in docs <==> id in order
    }

    constructor ()
      ensures Valid() && docs == map[] && order == []
    {
      docs := map[];
      order := [];
    }

    /** The cursor of `find(filter)`, the filter testing each document with `p`: every matching row. */
    function Find(p: D -> bool): (rows: seq<Row<D>>)
      reads this
      requires Valid()
      ensures forall i :: 0 <= i < |rows| ==> rows[i].id in docs && rows[i].doc == docs[rows[i].id] && p(rows[i].doc)
      ensures forall id :: id in docs && p(docs[id]) ==> Row(id, docs[id]) in rows
    {
      Select(order, docs, p)
    }

    /** `find_one(filter)`: the first matching row in natural order, if any. */
    function FindOne(p: D -> bool): (r: Option<Row<D>>)
      reads this
      requires Valid()
      ensures r.None? <==> forall id :: id in docs ==> !p(docs[id])
      ensures r.Some? ==> r.value.id in docs && r.value.doc == docs[r.value.id] && p(r.value.doc)
    {
      var rows := Find(p);
      if rows == [] then None
      else Some(rows[0])
    }

    /** No document before the one `find_one` returns satisfies the filter. */
    lemma FindOneIsFirst(p: D -> bool)
      requires Valid() && FindOne(p).Some?
      ensures exists k :: 0 <= k < |order| && order[k] == FindOne(p).value.id
                          && forall j :: 0 <= j < k ==> !p(docs[order[j]])
    {
      SelectFirst(order, docs, p);
    }

    /** `find_one({"_id": id})`. */
    function Get(id: ObjectId): Option<D>
      reads this
    {
      if id in docs then Some(docs[id]) else None
    }

    /** `insert_one(doc)`, the new `_id` being `id`. */
    method InsertOne(id: ObjectId, doc: D)
      requires Valid() && id !in docs
      modifies this
      ensures Valid()
      ensures docs == old(docs)[id := doc] && order == old(order) + [id]
    {
      docs := docs[id := doc];
      order := order + [id];
    }

    /**
     * `update_one({"_id": id}, operator)`, `change` being what the operator does
     * to a document. Returns matched_count and modified_count.
     */
    method UpdateOne(id: ObjectId, change: D -> D) returns (matched: nat, modified: nat)
      requires Valid()
      modifies this
      ensures Valid() && order == old(order)
      ensures matched == (if id in old(docs) then 1 else 0)
      ensures id in old(docs) ==>
                docs == old(docs)[id := change(old(docs)[id])]
                && modified == (if change(old(docs)[id]) == old(docs)[id] then 0 else 1)
      ensures id !in old(docs) ==> docs == old(docs) && modified == 0
    {
      if id in docs {
        var updated := change(docs[id]);
        matched := 1;
        modified := if updated == docs[id] then 0 else 1;
        docs := docs[id := updated];
      } else {
        matched, modified := 0, 0;
      }
    }

    /**
     * `delete_one({"_id": id, ...})`, `p` testing the rest of the filter.
     * Returns deleted_count.
     */
    method DeleteOne(id: ObjectId, p: D -> bool) returns (deleted: nat)
      requires Valid()
      modifies this
      ensures Valid()
      ensures deleted == (if id in old(docs) && p(old(docs)[id]) then 1 else 0)
      ensures deleted == 1 ==> docs == old(docs) - {id} && order == Without(old(order), id)
      ensures deleted == 0 ==> docs == old(docs) && order == old(order)
    {
      if id in docs && p(docs[id]) {
        docs := docs - {id};
        order := Without(order, id);
        deleted := 1;
      } else {
        deleted := 0;
      }
    }
  }
}
