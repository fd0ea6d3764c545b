/**
 * A JavaScript object used as a dictionary of records (`data.users`, `data.events`, the browser's
 * event map): the records under their keys, and the keys in the order `Object.entries` lists them
 * (first insertion first; reassigning a key keeps its place, `delete` removes it).
 */
module Collections {
  import opened Wrappers
  import opened JsValues

  datatype Collection = Collection(keys: seq<string>, records: map<string, Record>)

  predicate Distinct(s: seq<string>) {
    forall i, j :: 0 <= i < j < |s| ==> s[i] != s[j]
  }

  /** The keys are listed once each, and they are exactly the keys that hold a record. */
  ghost predicate Wf(c: Collection) {
    && Distinct(c.keys)
    && (forall k :: k in c.records <==> k in c.keys)
  }

  const EmptyCollection := Collection([], map[])

  lemma EmptyWf()
    ensures Wf(EmptyCollection)
  {
  }

  /** `obj[k]` */
  function Get(c: Collection, k: string): Option<Record> {
    if k in c.records then Some(c.records[k]) else None
  }

  /** `obj[k] = r`: a new key goes last, an existing key keeps its place. */
  function Put(c: Collection, k: string, r: Record): (d: Collection)
    requires Wf(c)
    ensures Wf(d)
    ensures d.records == c.records[k := r]
    ensures k in c.records ==> d.keys == c.keys
    ensures k !in c.records ==> d.keys == c.keys + [k]
  {
    if k in c.records then Collection(c.keys, c.records[k := r])
    else Collection(c.keys + [k], c.records[k := r])
  }

  /** The keys of `s` other than `k`, in order. */
  function Without(s: seq<string>, k: string): (t: seq<string>)
    ensures forall x :: x in t <==> x in s && x != k
    ensures Distinct(s) ==> Distinct(t)
    ensures k !in s ==> t == s
    decreases |s|
  {
    if |s| == 0 then []
    else
      var rest := Without(s[1..], k);
      assert Distinct(s) ==> Distinct(s[1..]) && s[0] !in s[1..] by {
        if Distinct(s) {
          forall i, j | 0 <= i < j < |s[1..]| ensures s[1..][i] != s[1..][j] {
            assert s[1..][i] == s[i + 1] && s[1..][j] == s[j + 1];
          }
          forall i | 0 <= i < |s[1..]| ensures s[1..][i] != s[0] {
            assert s[1..][i] == s[i + 1];
          }
        }
      }
      (if s[0] == k then [] else [s[0]]) + rest
  }

  /** `delete obj[k]`, which does nothing when `k` is absent. */
  function Remove(c: Collection, k: string): (d: Collection)
    requires Wf(c)
    ensures Wf(d)
    ensures d.records == c.records - {k}
    ensures k !in c.records ==> d == c
  {
    Collection(Without(c.keys, k), c.records - {k})
  }

  /** Only the record under `k` changes; every other key keeps its record. */
  lemma PutFrames(c: Collection, k: string, r: Record, k': string)
    requires Wf(c)
    ensures Get(Put(c, k, r), k) == Some(r)
    ensures k' != k ==> Get(Put(c, k, r), k') == Get(c, k')
  {
  }

  lemma RemoveFrames(c: Collection, k: string, k': string)
    requires Wf(c)
    ensures Get(Remove(c, k), k) == None
    ensures k' != k ==> Get(Remove(c, k), k') == Get(c, k')
  {
  }
}
