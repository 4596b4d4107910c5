/** The two MongoDB collections the handler touches, as in-memory values.
    A collection is the sequence of its documents in natural order, taken here as
    insertion order; `insertOne` appends a document and `findOne({ name })`
    returns the first document whose `name` matches in that order. Nothing in a collection forbids two documents
    with the same name: that uniqueness is an invariant the handler must keep. */
module Store {

  datatype Option<T> = None | Some(value: T)

  /** A document of the `participants` collection. */
  datatype Participant = Participant(name: string, lastStatus: int)

  /** A document of the `messages` collection; `kind` holds the document's `type`. */
  datatype Message = Message(from: string, to: string, text: string, kind: string, time: string)

  /** The names that have at least one document. */
  function Names(docs: seq<Participant>): set<string>
  {
    set p | p in docs :: p.name
  }

  /** No two documents share a name. */
  predicate Unique(docs: seq<Participant>)
  {
    forall i, j :: 0 <= i < j < |docs| ==> docs[i].name != docs[j].name
  }

  /** `findOne({ name })`: the first document with that name, if any. */
  function FindOne(docs: seq<Participant>, name: string): (r: Option<Participant>)
    ensures r.None? <==> name !in Names(docs)
    ensures r.Some? ==> r.value in docs && r.value.name == name
  {
    if docs == [] then None
    else if docs[0].name == name then Some(docs[0])
    else
      assert Names(docs) == {docs[0].name} + Names(docs[1..]) by {
        assert docs == [docs[0]] + docs[1..];
      }
      FindOne(docs[1..], name)
  }

  /** The number of documents with a given name. */
  function CountName(docs: seq<Participant>, name: string): nat
  {
    if docs == [] then 0
    else (if docs[0].name == name then 1 else 0) + CountName(docs[1..], name)
  }

  /** Every name has at most one document. */
  ghost predicate AtMostOnePerName(docs: seq<Participant>)
  {
    forall name :: CountName(docs, name) <= 1
  }

  /** The collection read as a map from name to `lastStatus`; where several
      documents share a name, the first one wins, as it does for `findOne`. */
  function Directory(docs: seq<Participant>): map<string, int>
  {
    if docs == [] then map[]
    else Directory(docs[1..])[docs[0].name := docs[0].lastStatus]
  }

  lemma {:induction false} NamesSplit(docs: seq<Participant>)
    requires docs != []
    ensures Names(docs) == {docs[0].name} + Names(docs[1..])
  {
    assert docs == [docs[0]] + docs[1..];
  }

  /** A name occurs in the collection exactly when it has a positive count. */
  lemma {:induction false} CountPositive(docs: seq<Participant>, name: string)
    ensures CountName(docs, name) > 0 <==> name in Names(docs)
  {
    if docs != [] {
      NamesSplit(docs);
      CountPositive(docs[1..], name);
    }
  }

  /** Appending one document adds one to its name's count and nothing to others. */
  lemma {:induction false} CountAppend(docs: seq<Participant>, p: Participant, name: string)
    ensures CountName(docs + [p], name) == CountName(docs, name) + (if p.name == name then 1 else 0)
  {
    if docs == [] {
      assert [p][1..] == [];
    } else {
      assert (docs + [p])[1..] == docs[1..] + [p];
      CountAppend(docs[1..], p, name);
    }
  }

  /** The tail of a collection without duplicates has none, and does not hold its head's name. */
  lemma {:induction false} UniqueTail(docs: seq<Participant>)
    requires docs != [] && Unique(docs)
    ensures Unique(docs[1..]) && docs[0].name !in Names(docs[1..])
  {
    var rest := docs[1..];
    forall p | p in rest ensures p.name != docs[0].name {
      var k :| 0 <= k < |rest| && rest[k] == p;
      assert docs[k + 1] == p;
    }
    forall i, j | 0 <= i < j < |rest| ensures rest[i].name != rest[j].name {
      assert docs[i + 1] == rest[i] && docs[j + 1] == rest[j];
    }
  }

  /** Without duplicates, every name has at most one document. */
  lemma {:induction false} UniqueAtMostOne(docs: seq<Participant>, name: string)
    requires Unique(docs)
    ensures CountName(docs, name) <= 1
  {
    if docs != [] {
      UniqueTail(docs);
      UniqueAtMostOne(docs[1..], name);
      CountPositive(docs[1..], docs[0].name);
    }
  }

  /** If every name has at most one document, there are no duplicates. */
  lemma {:induction false} AtMostOneUnique(docs: seq<Participant>)
    requires AtMostOnePerName(docs)
    ensures Unique(docs)
  {
    if docs != [] {
      var rest := docs[1..];
      forall name ensures CountName(rest, name) <= 1 {
        assert CountName(docs, name) <= 1;
      }
      AtMostOneUnique(rest);
      assert CountName(docs, docs[0].name) <= 1;
      CountPositive(rest, docs[0].name);
      forall i, j | 0 <= i < j < |docs| ensures docs[i].name != docs[j].name {
        if i == 0 {
          assert docs[j] == rest[j - 1];
          assert docs[j].name in Names(rest);
        } else {
          assert docs[i] == rest[i - 1] && docs[j] == rest[j - 1];
        }
      }
    }
  }

  /** Uniqueness means every name has at most one document, and conversely. */
  lemma UniqueIffAtMostOne(docs: seq<Participant>)
    ensures Unique(docs) <==> AtMostOnePerName(docs)
  {
    if Unique(docs) {
      forall name ensures CountName(docs, name) <= 1 {
        UniqueAtMostOne(docs, name);
      }
    }
    if AtMostOnePerName(docs) {
      AtMostOneUnique(docs);
    }
  }

  /** The directory has exactly the collection's names as keys. */
  lemma {:induction false} DirectoryKeys(docs: seq<Participant>)
    ensures Directory(docs).Keys == Names(docs)
  {
    if docs != [] {
      NamesSplit(docs);
      DirectoryKeys(docs[1..]);
    }
  }

  /** `findOne` and the directory agree on every name, whatever the collection holds. */
  lemma {:induction false} FindOneAgreesWithDirectory(docs: seq<Participant>, name: string)
    ensures FindOne(docs, name) ==
      if name in Directory(docs) then Some(Participant(name, Directory(docs)[name])) else None
  {
    DirectoryKeys(docs);
    if docs != [] && docs[0].name != name {
      FindOneAgreesWithDirectory(docs[1..], name);
    }
  }

  /** Inserting a document under a new name extends the directory by that one entry. */
  lemma {:induction false} DirectoryAppend(docs: seq<Participant>, p: Participant)
    requires p.name !in Names(docs)
    ensures Directory(docs + [p]) == Directory(docs)[p.name := p.lastStatus]
  {
    if docs == [] {
      assert [p][1..] == [];
    } else {
      NamesSplit(docs);
      assert (docs + [p])[1..] == docs[1..] + [p];
      DirectoryAppend(docs[1..], p);
    }
  }

  /** With unique names, the directory has one entry per document. */
  lemma {:induction false} UniqueDirectorySize(docs: seq<Participant>)
    requires Unique(docs)
    ensures |Directory(docs)| == |docs|
  {
    if docs != [] {
      UniqueTail(docs);
      UniqueDirectorySize(docs[1..]);
      DirectoryKeys(docs[1..]);
    }
  }
}
