/** List and table elements.  The utlist macros work on any struct that has
    `prev` and `next`; the uthash macros on any struct that has a hash handle.
    One class stands for both: the macros of one header touch only their own
    fields, which the `modifies` clauses of the methods state field by field. */
module Elements {

  /** A key is a byte string: what `key` and `keylen` of a handle delimit. */
  datatype Key = Key(bytes: seq<Byte>)

  type Byte = x: nat | x < 256

  class Elem {
    // element order: utlist links, or application order of a hash table
    var next: Elem?
    var prev: Elem?
    // bucket order
    var hhNext: Elem?
    var hhPrev: Elem?
    // rest of the hash handle, set when the element is added to a table
    var tag: Tag

    constructor ()
    {
      next, prev, hhNext, hhPrev, tag := null, null, null, null, Tag(null, Key([]), 0);
    }
  }

  /** The part of UT_hash_handle that is set once: table, key and hash value. */
  datatype Tag = Tag(tbl: Table?, key: Key, hashv: nat)

  /** UT_hash_bucket. */
  datatype Bucket = Bucket(hhHead: Elem?, count: nat, expandMult: nat)

  /** The counters of UT_hash_table. */
  datatype Counters = Counters(
    numBuckets: nat, log2NumBuckets: nat, numItems: nat, idealChainMaxlen: nat,
    nonidealItems: nat, ineffExpands: nat, noexpand: bool)

  /** UT_hash_table. */
  class Table {
    var buckets: array<Bucket>
    var st: Counters
    var tail: Elem?

    constructor (n: nat, log2: nat, tail: Elem)
      ensures fresh(buckets) && buckets.Length == n && forall b :: 0 <= b < n ==> buckets[b] == Bucket(null, 0, 0)
      ensures st == Counters(n, log2, 0, 0, 0, 0, false)
      ensures this.tail == tail
    {
      buckets := new Bucket[n](_ => Bucket(null, 0, 0));
      st := Counters(n, log2, 0, 0, 0, 0, false);
      this.tail := tail;
    }
  }

  function First(s: seq<Elem>): Elem? {
    if s == [] then null else s[0]
  }

  function Last(s: seq<Elem>): Elem? {
    if s == [] then null else s[|s| - 1]
  }

  /** The elements of `s`, as a frame. */
  ghost function Elems(s: seq<Elem>): set<Elem> {
    set x | x in s
  }

  lemma ElemsAppend(s: seq<Elem>, x: Elem)
    ensures Elems(s + [x]) == Elems(s) + {x} && s + [x] != []
  {
  }

  ghost predicate Distinct<T>(s: seq<T>) {
    forall i, j :: 0 <= i < j < |s| ==> s[i] != s[j]
  }

  ghost predicate Apart<T>(a: seq<T>, b: seq<T>) {
    forall x :: x in a ==> x !in b
  }

  lemma DistinctConcat<T>(a: seq<T>, b: seq<T>)
    requires Distinct(a) && Distinct(b) && Apart(a, b)
    ensures Distinct(a + b)
  {
    forall i, j | 0 <= i < j < |a + b| ensures (a + b)[i] != (a + b)[j] {
      if i < |a| <= j {
        assert a[i] in a && b[j - |a|] in b;
      }
    }
  }

  /** `next` runs along `s`; where the last element points is not constrained. */
  ghost predicate Linked(s: seq<Elem>)
    reads s`next
  {
    forall i {:trigger s[i].next} :: 0 <= i < |s| - 1 ==> s[i].next == s[i + 1]
  }

  /** `next` runs along `s` and then to `end`. */
  ghost predicate Chain(s: seq<Elem>, end: Elem?)
    reads s`next
  {
    forall i {:trigger s[i].next} :: 0 <= i < |s| ==> s[i].next == if i + 1 < |s| then s[i + 1] else end
  }

  /** `prev` runs back along `s`, and from its first element to `start`. */
  ghost predicate Back(s: seq<Elem>, start: Elem?)
    reads s`prev
  {
    forall i {:trigger s[i].prev} :: 0 <= i < |s| ==> s[i].prev == if i == 0 then start else s[i - 1]
  }

  ghost function InsertAt(s: seq<Elem>, k: nat, x: Elem): seq<Elem>
    requires k <= |s|
  {
    s[..k] + [x] + s[k..]
  }

  ghost function RemoveAt(s: seq<Elem>, k: nat): seq<Elem>
    requires k < |s|
  {
    s[..k] + s[k + 1..]
  }

  lemma InsertDistinct(s: seq<Elem>, k: nat, x: Elem)
    requires Distinct(s) && x !in s && k <= |s|
    ensures Distinct(InsertAt(s, k, x))
  {
    var t := InsertAt(s, k, x);
    forall i | 0 <= i < |t| ensures t[i] == if i < k then s[i] else if i == k then x else s[i - 1] {}
  }

  lemma RemoveDistinct(s: seq<Elem>, k: nat)
    requires Distinct(s) && k < |s|
    ensures Distinct(RemoveAt(s, k)) && s[k] !in RemoveAt(s, k)
  {
    var t := RemoveAt(s, k);
    forall i | 0 <= i < |t| ensures t[i] == if i < k then s[i] else s[i + 1] {}
  }

  /** The links around position `k` of a list, spelled out. */
  lemma Neighbours(s: seq<Elem>, k: nat, end: Elem?)
    requires k < |s| && Distinct(s) && Chain(s, end) && Back(s, Last(s))
    ensures s[k].next == if k + 1 < |s| then s[k + 1] else end
    ensures s[k].prev == if k == 0 then s[|s| - 1] else s[k - 1]
    ensures forall i :: 0 <= i < |s| && i != k ==> s[i] != s[k]
  {
  }
}
