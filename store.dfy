/** A MongoDB collection as the handlers see it: a map from id to record that
    the handlers change in place, plus the generator that hands out fresh ids. */
module Store {
  import opened Common

  /** A stored document: its id and its fields. */
  datatype Doc<T> = Doc(id: Id, fields: T)

  /** The documents of `docs` with an id below `n`, in increasing id order.
      MongoDB leaves the order of an unsorted `find` unspecified; the model
      fixes increasing id order, which is insertion order, as one possible order. */
  function Listing<T>(docs: map<Id, T>, n: nat): (r: seq<Doc<T>>)
    ensures forall i :: 0 <= i < |r| ==> r[i].id < n && r[i].id in docs && docs[r[i].id] == r[i].fields
    ensures forall id :: id in docs && id < n ==> Doc(id, docs[id]) in r
    ensures forall i, j :: 0 <= i < j < |r| ==> r[i].id < r[j].id
  {
    if n == 0 then []
    else
      var rest := Listing(docs, n - 1);
      if n - 1 in docs then rest + [Doc(n - 1, docs[n - 1])] else rest
  }

  /** `find(filter)` over a listing: the documents the filter selects, in order. */
  function Select<T>(docs: seq<Doc<T>>, selected: T -> bool): (r: seq<Doc<T>>)
    ensures forall i :: 0 <= i < |r| ==> r[i] in docs && selected(r[i].fields)
    ensures forall i :: 0 <= i < |docs| && selected(docs[i].fields) ==> docs[i] in r
    ensures (forall i, j :: 0 <= i < j < |docs| ==> docs[i].id < docs[j].id) ==>
              forall i, j :: 0 <= i < j < |r| ==> r[i].id < r[j].id
  {
    if docs == [] then []
    else
      var rest := Select(docs[1..], selected);
      assert forall i :: 0 <= i < |rest| ==> rest[i] in docs by {
        forall i | 0 <= i < |rest| ensures rest[i] in docs {
          var k :| 0 <= k < |docs[1..]| && docs[1..][k] == rest[i];
          assert docs[k + 1] == rest[i];
        }
      }
      if selected(docs[0].fields) then [docs[0]] + rest else rest
  }

  /** `findOne(filter)` over a listing: the first document the filter selects. */
  function FindFirst<T>(docs: seq<Doc<T>>, selected: T -> bool): (r: Option<Doc<T>>)
    ensures r.None? <==> forall i :: 0 <= i < |docs| ==> !selected(docs[i].fields)
    ensures r.Some? ==> exists k :: 0 <= k < |docs| && docs[k] == r.value && selected(r.value.fields) &&
                          forall i :: 0 <= i < k ==> !selected(docs[i].fields)
  {
    if docs == [] then None
    else if selected(docs[0].fields) then Some(docs[0])
    else
      var r := FindFirst(docs[1..], selected);
      assert r.Some? ==> exists k :: 0 <= k < |docs| && docs[k] == r.value by {
        if r.Some? {
          var k :| 0 <= k < |docs[1..]| && docs[1..][k] == r.value && selected(r.value.fields) &&
                   forall i :: 0 <= i < k ==> !selected(docs[1..][i].fields);
          assert docs[k + 1] == r.value;
          assert forall i :: 0 <= i < k + 1 ==> !selected(docs[i].fields) by {
            forall i | 0 <= i < k + 1 ensures !selected(docs[i].fields) {
              if i > 0 { assert docs[i] == docs[1..][i - 1]; }
            }
          }
        }
      }
      r
  }

  class Collection<T> {
    var docs: map<Id, T>
    var nextId: Id

    /** Every stored id was handed out before: the next id is fresh. */
    ghost predicate Valid()
      reads this
    {
      forall id :: id in docs ==> id < nextId
    }

    constructor ()
      ensures Valid() && docs == map[]
    {
      docs := map[];
      nextId := 0;
    }

    /** `Model.create(x)` once validation has passed: stores x under a fresh id. */
    method Insert(x: T) returns (id: Id)
      requires Valid()
      modifies this
      ensures Valid()
      ensures id !in old(docs) && docs == old(docs)[id := x]
    {
      id := nextId;
      docs := docs[id := x];
      nextId := nextId + 1;
    }

    /** `doc.save()` / `findByIdAndUpdate` on an existing document. */
    method Replace(id: Id, x: T)
      requires Valid() && id in docs
      modifies this
      ensures Valid()
      ensures docs == old(docs)[id := x] && docs.Keys == old(docs).Keys
    {
      docs := docs[id := x];
    }

    /** `deleteOne` of one document. */
    method Remove(id: Id)
      requires Valid()
      modifies this
      ensures Valid()
      ensures docs == old(docs) - {id}
    {
      docs := docs - {id};
    }

    /** `deleteMany(filter)`: removes every document the filter selects. */
    method RemoveWhere(selected: T -> bool)
      requires Valid()
      modifies this
      ensures Valid()
      ensures docs == map id | id in old(docs) && !selected(old(docs)[id]) :: old(docs)[id]
    {
      docs := map id | id in docs && !selected(docs[id]) :: docs[id];
    }

    /** `find({})`: every stored document, each once, in increasing id order (the order the model fixes for an unsorted `find`). */
    function All(): (r: seq<Doc<T>>)
      reads this
      requires Valid()
      ensures forall i :: 0 <= i < |r| ==> r[i].id in docs && docs[r[i].id] == r[i].fields
      ensures forall id :: id in docs ==> Doc(id, docs[id]) in r
      ensures forall i, j :: 0 <= i < j < |r| ==> r[i].id < r[j].id
    {
      Listing(docs, nextId)
    }
  }
}
