/** The vCard itself: a map from property name to the properties of that name,
    in the order they were added. */
module Cards {
  import opened Properties

  /** An error result: `None` for Go's nil error. */
  datatype Option<T> = None | Some(value: T)

  /** Name of the property that carries the vCard's version. */
  const PropVersion := "VERSION"

  /** The map after appending `p` to the sequence under `k`. Used both for the
      Card of Property objects and for its value-level picture. */
  function Appended<T>(m: map<string, seq<T>>, k: string, p: T): map<string, seq<T>> {
    m[k := Lookup(m, k) + [p]]
  }

  /** Appending lengthens the sequence under `k` by `p` alone and leaves every
      other key as it was; on an absent key it makes `[p]`. */
  lemma AppendedEffect<T>(m: map<string, seq<T>>, k: string, p: T)
    ensures Lookup(Appended(m, k, p), k) == Lookup(m, k) + [p]
    ensures |Lookup(Appended(m, k, p), k)| == |Lookup(m, k)| + 1
    ensures Lookup(Appended(m, k, p), k)[..|Lookup(m, k)|] == Lookup(m, k)
    ensures k !in m ==> Appended(m, k, p)[k] == [p]
    ensures forall j :: j != k ==> Lookup(Appended(m, k, p), j) == Lookup(m, j)
    ensures Appended(m, k, p).Keys == m.Keys + {k}
  {
  }

  /** Get: the first property under `k`, or null when there is none. */
  function First(m: map<string, seq<Property>>, k: string): (r: Property?)
    ensures r == null <==> |Lookup(m, k)| == 0
    ensures r != null ==> r == m[k][0]
  {
    if |Lookup(m, k)| < 1 then null else m[k][0]
  }

  /** After adding to an absent or empty key, Get gives the added property;
      after adding to a non-empty key, Get is unchanged. */
  lemma {:induction false} FirstAfterAppend(m: map<string, seq<Property>>, k: string, p: Property)
    ensures |Lookup(m, k)| == 0 ==> First(Appended(m, k, p), k) == p
    ensures |Lookup(m, k)| > 0 ==> First(Appended(m, k, p), k) == First(m, k)
    ensures forall j :: j != k ==> First(Appended(m, k, p), j) == First(m, j)
  {
    AppendedEffect(m, k, p);
  }

  /** A Card: Go's `map[string][]*Property`, shared by reference, so `Add`
      changes it in place. */
  class Card {
    var entries: map<string, seq<Property>>

    /** `make(Card)`. */
    constructor ()
      ensures entries == map[]
    {
      entries := map[];
    }

    /** Get: the first property under `k`, or null. */
    function Get(k: string): (r: Property?)
      reads this
      ensures r == null <==> (k !in entries || |entries[k]| == 0)
      ensures r != null ==> r == entries[k][0]
    {
      First(entries, k)
    }

    /** Add: appends `p` under `key`. */
    method Add(key: string, p: Property)
      modifies this
      ensures entries == Appended(old(entries), key, p)
      ensures Lookup(entries, key) == Lookup(old(entries), key) + [p]
      ensures forall j :: j != key ==> Lookup(entries, j) == Lookup(old(entries), j)
    {
      entries := entries[key := Lookup(entries, key) + [p]];
    }

    /** Set: has an empty body, so it changes nothing. */
    method Set()
      ensures entries == old(entries)
    {
    }
  }
}
