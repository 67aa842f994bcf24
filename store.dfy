/**
  The one read the dashboard makes of the animal collection: `findDocs`,
  an exact-match query. The collection is a sequence of documents in the
  order the store returns them.
 */
module Store {
  import opened Records

  /** `doc` has every field of `criteria`, with the same value. */
  predicate Matches(criteria: Record, doc: Record) {
    forall k :: k in criteria ==> k in doc && doc[k] == criteria[k]
  }

  /** The documents of `collection` that match `criteria`, in collection order. */
  function FindDocs(collection: seq<Record>, criteria: Record): seq<Record> {
    Filter(collection, MatchMask(criteria))
  }

  function MatchMask(criteria: Record): Record -> bool {
    doc => Matches(criteria, doc)
  }

  /** `findDocs` returns exactly the matching documents, in collection order. */
  lemma FindDocsExact(collection: seq<Record>, criteria: Record)
    ensures forall i :: 0 <= i < |FindDocs(collection, criteria)| ==>
      FindDocs(collection, criteria)[i] in collection && Matches(criteria, FindDocs(collection, criteria)[i])
    ensures forall d :: d in collection && Matches(criteria, d) ==> d in FindDocs(collection, criteria)
    ensures IsSubsequence(FindDocs(collection, criteria), collection)
  {
    FilterMembers(collection, MatchMask(criteria));
    FilterIsSubsequence(collection, MatchMask(criteria));
  }

  /** The empty criteria `{}` match every document. */
  lemma FindAllIsEverything(collection: seq<Record>)
    ensures FindDocs(collection, map[]) == collection
  {
    FilterKeepAll(collection, MatchMask(map[]));
  }
}
