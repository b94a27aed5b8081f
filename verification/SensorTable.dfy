/** The sensor registry of the C sensor manager: a hash table of entries, each
    pointing to a sensor, keyed by the sensor's name. */
module SensorTable {
  import opened Elements
  import opened Buckets
  import opened TableCore
  import opened HashTables
  import opened Uthash
  import opened Wrappers

  /** A sensor, as far as the registry looks at it. */
  datatype Sensor = Sensor(id: nat, name: seq<Byte>)

  /** The table and its bucket array. */
  ghost function Storage(r: Rep): set<object>
    reads r.table
  {
    if r.table == null then {} else {r.table as object, r.table.buckets as object}
  }

  /** All memory behind a head pointer. */
  ghost function Memory(r: Rep): set<object>
    reads r.table
  {
    Elems(r.nodes) + Storage(r)
  }

  lemma MemoryLeft(r: Rep, r': Rep, e: Elem)
    requires e in r.nodes && r'.nodes == Without(r.nodes, e) && Distinct(r.nodes)
    requires r.table != null && r'.table == if |r.nodes| == 1 then null else r.table
    ensures Memory(r) == Memory(r') + {e} + if |r.nodes| == 1 then Storage(r) else {}
    ensures Memory(r') !! {e} + if |r.nodes| == 1 then Storage(r) else {}
    ensures e !in Storage(r)
  {
    var k :| 0 <= k < |r.nodes| && r.nodes[k] == e;
    WithoutAt(r.nodes, k);
    ElemsRemove(r.nodes, k);
    assert Elems(r.nodes) == Elems(r'.nodes) + {e};
    assert e as object != r.table && e as object != r.table.buckets;
    if |r.nodes| == 1 { assert r'.nodes == [] && Elems(r'.nodes) == {}; }
  }

  /** HASH_DEL, on memory none of which has been freed. */
  method DeleteLive(head: Elem, del: Elem, ghost r: Rep, ghost freed: set<object>)
    returns (head': Elem?, ghost r': Rep, ghost freed': set<object>)
    requires Valid(head, r) && del in r.nodes && r.table != null && Memory(r) !! freed
    modifies r.table, r.table.buckets
    modifies Elems(r.nodes)`next, Elems(r.nodes)`prev, Elems(r.nodes)`hhNext, Elems(r.nodes)`hhPrev
    ensures Valid(head', r') && r'.nodes == Without(r.nodes, del)
    ensures r'.table == (if |r.nodes| == 1 then null else r.table) && r.table.buckets == old(r.table.buckets)
    ensures Memory(r) == old(Memory(r)) && freed' == freed + if |r.nodes| == 1 then Storage(r) else {}
  {
    hide Valid, Without;
    ghost var released;
    head', r', released := Delete(head, del, r);
    freed' := FreeAll(released, freed);
  }

  /** HASH_DEL(head, del) and free(del), on memory none of which has been freed. */
  method DeleteAndFree(head: Elem, del: Elem, ghost r: Rep, ghost freed: set<object>)
    returns (head': Elem?, ghost r': Rep, ghost freed': set<object>)
    requires Valid(head, r) && del in r.nodes && r.table != null && Memory(r) !! freed
    modifies r.table, r.table.buckets
    modifies Elems(r.nodes)`next, Elems(r.nodes)`prev, Elems(r.nodes)`hhNext, Elems(r.nodes)`hhPrev
    ensures Valid(head', r') && r'.nodes == Without(r.nodes, del)
    ensures r'.table == (if |r.nodes| == 1 then null else r.table) && r.table.buckets == old(r.table.buckets)
    ensures Memory(r') !! freed' && Memory(r') + freed' == old(Memory(r)) + freed
  {
    ValidDistinct(head, r);
    hide Valid, Without, Distinct, Memory, Storage;
    head', r', freed' := DeleteLive(head, del, r, freed);
    MemoryLeft(r, r', del);
    freed' := FreeAll({del}, freed');
  }

  /** uthash_free or free of memory that has not been freed before. */
  ghost function FreeAll(objs: set<object>, freed: set<object>): (freed': set<object>)
    requires objs !! freed
    ensures freed' == freed + objs
  {
    freed + objs
  }

  /** `e->hh.next`, read from memory that is still there. */
  function LoadNext(e: Elem, ghost freed: set<object>): Elem?
    requires e !in freed
    reads e
  {
    e.next
  }

  function Second(s: seq<Elem>): Elem? {
    if |s| > 1 then s[1] else null
  }

  lemma FirstOfValid(head: Elem?, r: Rep)
    requires Valid(head, r)
    ensures head == First(r.nodes) && Distinct(r.nodes) && (r.nodes == [] <==> r.table == null)
    ensures r.nodes != [] ==> r.nodes[0].next == Second(r.nodes) && Without(r.nodes, r.nodes[0]) == r.nodes[1..]
  {
  }

  /** One round of the loop in sensor_ht_destroy, with HASH_ITER's advance. */
  method TearRound(head: Elem, entry: Elem, tmp: Elem?, ghost r: Rep, ghost freed: set<object>)
    returns (head': Elem?, entry': Elem?, tmp': Elem?, ghost r': Rep, ghost freed': set<object>)
    requires Valid(head, r) && r.nodes != [] && entry == r.nodes[0] && tmp == Second(r.nodes) && r.table != null
    requires Memory(r) !! freed
    modifies r.table, r.table.buckets
    modifies Elems(r.nodes)`next, Elems(r.nodes)`prev, Elems(r.nodes)`hhNext, Elems(r.nodes)`hhPrev
    ensures Valid(head', r') && r'.nodes == r.nodes[1..] && r'.table == (if |r.nodes| == 1 then null else r.table)
    ensures head' == entry' == First(r'.nodes) && tmp' == Second(r'.nodes) && r.table.buckets == old(r.table.buckets)
    ensures Memory(r') !! freed' && Memory(r') + freed' == old(Memory(r)) + freed && Elems(r'.nodes) <= Elems(r.nodes)
  {
    assert Elems(r.nodes[1..]) <= Elems(r.nodes);
    FirstOfValid(head, r);
    hide Valid, Without, Distinct, Memory;
    head', r', freed' := DeleteAndFree(head, entry, r, freed);
    FirstOfValid(head', r');
    entry', tmp' := tmp, null;
    if tmp != null {
      FirstAlive(r', tmp);
      tmp' := LoadNext(tmp, freed');
    }
  }

  lemma FirstAlive(r: Rep, e: Elem)
    requires r.nodes != [] && e == r.nodes[0]
    ensures e in Memory(r)
  {
    assert e in Elems(r.nodes);
  }

  lemma Shift(a: seq<Elem>, b: seq<Elem>, e: Elem)
    requires b != [] && e == b[0]
    ensures a + [e] + b[1..] == a + b
  {
  }

  /** The loop of sensor_ht_destroy: HASH_ITER, with HASH_DEL and free in its
      body.  `frees` lists the entries in the order of their free. */
  method TearLoop(head: Elem, ghost r: Rep, ghost freed: set<object>)
    returns (head': Elem?, ghost frees: seq<Elem>, ghost freed': set<object>)
    requires Valid(head, r) && r.table != null && Memory(r) !! freed
    modifies r.table, r.table.buckets
    modifies Elems(r.nodes)`next, Elems(r.nodes)`prev, Elems(r.nodes)`hhNext, Elems(r.nodes)`hhPrev
    ensures head' == null && frees == r.nodes
    ensures freed' == freed + old(Memory(r))
  {
    FirstOfValid(head, r);
    FirstAlive(r, head);
    ghost var rest, m := r, Memory(r);
    hide Valid, Distinct, Memory, Without, Elems;
    head', frees, freed' := head, [], freed;
    var entry, tmp := head, LoadNext(head, freed);
    while entry != null
      invariant Valid(head', rest) && frees + rest.nodes == r.nodes
      invariant head' == entry == First(rest.nodes) && tmp == Second(rest.nodes)
      invariant rest.table == if rest.nodes == [] then null else r.table
      invariant r.table.buckets == old(r.table.buckets) && Elems(rest.nodes) <= Elems(r.nodes)
      invariant Memory(rest) !! freed' && Memory(rest) + freed' == m + freed
      decreases |rest.nodes|
    {
      var e: Elem := entry;
      Shift(frees, rest.nodes, e);
      frees := frees + [e];
      head', entry, tmp, rest, freed' := TearRound(head', e, tmp, rest, freed');
    }
    NoMemory(rest);
  }

  /** sensor_ht_destroy. */
  method TearDown(head: Elem?, ghost r: Rep, ghost freed: set<object>)
    returns (head': Elem?, ghost frees: seq<Elem>, ghost freed': set<object>)
    requires Valid(head, r) && Memory(r) !! freed
    modifies r.table, if r.table == null then {} else {r.table.buckets}
    modifies Elems(r.nodes)`next, Elems(r.nodes)`prev, Elems(r.nodes)`hhNext, Elems(r.nodes)`hhPrev
    ensures head' == null && frees == r.nodes && Distinct(frees)
    ensures freed' == freed + old(Memory(r))
  {
    FirstOfValid(head, r);
    hide Valid, Distinct, Memory;
    if head == null {
      NoMemory(r);
      head', frees, freed' := null, [], freed;
    } else {
      head', frees, freed' := TearLoop(head, r, freed);
    }
  }

  lemma NoMemory(r: Rep)
    requires r.nodes == [] && r.table == null
    ensures Memory(r) == {}
  {
    assert Elems(r.nodes) == {};
  }

  /** Every entry is filed under the name of its sensor, hashed by `hash`. */
  ghost predicate Filed(nodes: seq<Elem>, ssrOf: map<Elem, Sensor>, hash: Key -> nat)
    reads nodes`tag
  {
    forall x :: x in nodes ==> x in ssrOf && x.tag.key == Key(ssrOf[x].name) && x.tag.hashv == hash(x.tag.key)
  }

  ghost function SensorsOf(nodes: seq<Elem>, ssrOf: map<Elem, Sensor>): seq<Sensor>
    requires forall x :: x in nodes ==> x in ssrOf
  {
    seq(|nodes|, i requires 0 <= i < |nodes| => ssrOf[nodes[i]])
  }

  lemma FiledKnown(nodes: seq<Elem>, ssrOf: map<Elem, Sensor>, hash: Key -> nat)
    requires Filed(nodes, ssrOf, hash)
    ensures forall x :: x in nodes ==> x in ssrOf
  {
  }

  lemma SensorsSnoc(nodes: seq<Elem>, ssrOf: map<Elem, Sensor>, entry: Elem, ssr: Sensor)
    requires (forall x :: x in nodes ==> x in ssrOf) && entry !in nodes
    ensures (forall x :: x in nodes + [entry] ==> x in ssrOf[entry := ssr])
    ensures SensorsOf(nodes + [entry], ssrOf[entry := ssr]) == SensorsOf(nodes, ssrOf) + [ssr]
  {
  }

  lemma FiledSnoc(nodes: seq<Elem>, ssrOf: map<Elem, Sensor>, entry: Elem, ssr: Sensor, hash: Key -> nat)
    requires Filed(nodes, ssrOf, hash) && entry !in nodes
    requires entry.tag.key == Key(ssr.name) && entry.tag.hashv == hash(entry.tag.key)
    ensures Filed(nodes + [entry], ssrOf[entry := ssr], hash)
  {
  }

  /** HASH_ADD_KEYPTR of a new entry for `ssr`. */
  method AddEntryFor(head: Elem?, entry: Elem, ssr: Sensor, hash: Key -> nat, ghost ssrOf: map<Elem, Sensor>,
                     ghost r: Rep)
    returns (head': Elem, ghost r': Rep)
    requires Uthash.Valid(head, r) && Filed(r.nodes, ssrOf, hash) && entry !in r.nodes
    modifies entry, r.table, if r.table == null then {} else {r.table.buckets}
    modifies Elems(r.nodes)`next, Elems(r.nodes)`hhNext, Elems(r.nodes)`hhPrev
    ensures Uthash.Valid(head', r') && r'.nodes == r.nodes + [entry] && Filed(r'.nodes, ssrOf[entry := ssr], hash)
    ensures SensorsOf(r'.nodes, ssrOf[entry := ssr]) == SensorsOf(r.nodes, ssrOf) + [ssr]
  {
    hide Uthash.Valid, SensorsOf, Filed, Elems, Grown, NewTable;
    FiledKnown(r.nodes, ssrOf, hash);
    SensorsSnoc(r.nodes, ssrOf, entry, ssr);
    var key := Key(ssr.name);
    var hashv := hash(key);
    head', r' := AddByHash(head, entry, key, hashv, r);
    assert Filed(r.nodes, ssrOf, hash);
    FiledSnoc(r.nodes, ssrOf, entry, ssr, hash);
  }

  lemma EmptyHolds(hash: Key -> nat)
    ensures Uthash.Valid(null, EMPTY) && Filed([], map[], hash)
  {
  }

  class SensorManager {
    var sensorHt: Elem?
    var ssrOf: map<Elem, Sensor> // the `ssr` field of the entries
    ghost var rep: Rep
    const hash: Key -> nat // HASH_FUNCTION

    ghost predicate Valid()
      reads this, rep.nodes, rep.table, if rep.table == null then {} else {rep.table.buckets}
    {
      Uthash.Valid(sensorHt, rep) && Filed(rep.nodes, ssrOf, hash)
    }

    /** All sensors, in the order in which they were added. */
    ghost function Sensors(): seq<Sensor>
      reads this, rep.nodes
      requires Filed(rep.nodes, ssrOf, hash)
    {
      SensorsOf(rep.nodes, ssrOf)
    }

    constructor (hash: Key -> nat)
      ensures Valid() && Sensors() == [] && this.hash == hash
    {
      this.hash := hash;
      sensorHt, ssrOf, rep := null, map[], EMPTY;
    }

    /** sensor_manager_sensor_get: a sensor of that name, if there is one. */
    method SensorGet(name: seq<Byte>) returns (out: Option<Sensor>)
      requires Valid()
      ensures out.None? <==> forall s :: s in Sensors() ==> s.name != name
      ensures out.Some? ==> out.value in Sensors() && out.value.name == name
    {
      hide Uthash.Valid;
      var key := Key(name);
      var entry := FindByHash(sensorHt, key, hash(key), rep);
      if entry == null {
        out := None;
        forall s | s in Sensors() ensures s.name != name {
          var i :| 0 <= i < |Sensors()| && Sensors()[i] == s;
          assert !Match(rep.nodes[i], key, hash(key));
        }
      } else {
        out := Some(ssrOf[entry]);
        ghost var i :| 0 <= i < |rep.nodes| && rep.nodes[i] == entry;
        assert Sensors()[i] == ssrOf[entry];
      }
    }

    /** sensor_ht_add. */
    method SensorHtAdd(ssr: Sensor)
      requires Valid()
      modifies this, rep.nodes, rep.table, if rep.table == null then {} else {rep.table.buckets}
      ensures Valid() && Sensors() == old(Sensors()) + [ssr]
      ensures exists e :: rep.nodes == old(rep.nodes) + [e] && fresh(e)
    {
      var entry := new Elem();
      hide Uthash.Valid, SensorsOf, Filed;
      var h;
      ghost var r;
      h, r := AddEntryFor(sensorHt, entry, ssr, hash, ssrOf, rep);
      sensorHt, ssrOf, rep := h, ssrOf[entry := ssr], r;
    }

    /** sensor_ht_destroy: every entry is freed once, in order, the table and
        its buckets once, and nothing is read after its free. */
    method SensorHtDestroy(ghost freed: set<object>) returns (ghost frees: seq<Elem>, ghost freed': set<object>)
      requires Valid() && Memory(rep) !! freed
      modifies this, rep.nodes, rep.table, if rep.table == null then {} else {rep.table.buckets}
      ensures Valid() && sensorHt == null && Sensors() == []
      ensures frees == old(rep.nodes) && Distinct(frees) && freed' == freed + old(Memory(rep))
    {
      hide Uthash.Valid, Memory, Filed;
      var h;
      h, frees, freed' := TearDown(sensorHt, rep, freed);
      sensorHt, ssrOf, rep := h, map[], EMPTY;
      EmptyHolds(hash);
    }
  }
}
