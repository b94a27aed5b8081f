/** The sensor manager of the Python library: one dictionary by name and one by
    type and name. */
module SensorIndex {
  import opened OrderedDict

  datatype Sensor = Sensor(name: string, stype: string, id: nat)

  /** Both dictionaries.  Nothing lists the types, so their order is left out. */
  datatype Index = Index(sensors: Dict<Sensor>, perType: map<string, Dict<Sensor>>)

  const NONE: Dict<Sensor> := EmptyDict()

  const NO_SENSORS := Index(NONE, map[])

  datatype Outcome = Done | AssertionError | KeyError

  /** What holds whatever the sensor classes do: sensors are filed under their
      own names. */
  ghost predicate Keyed(x: Index) {
    && Ok(x.sensors) && (forall t :: t in x.perType ==> Ok(x.perType[t]))
    && (forall n :: n in x.sensors.at ==> x.sensors.at[n].name == n)
  }

  function GroupOf(perType: map<string, Dict<Sensor>>, t: string): Dict<Sensor> {
    if t in perType then perType[t] else NONE
  }

  /** The names of the sensors of type `t`. */
  function NamesOf(sensors: Dict<Sensor>, t: string): set<string> {
    set n | n in sensors.at && sensors.at[n].stype == t
  }

  /** The second dictionary groups the sensors by type, in the order of the
      first, and has no empty group. */
  ghost predicate Grouped(x: Index, t: string) {
    GroupOf(x.perType, t) == Select(x.sensors, NamesOf(x.sensors, t)) && (t in x.perType ==> x.perType[t].at != map[])
  }

  ghost predicate Good(x: Index) {
    Keyed(x) && forall t :: Grouped(x, t)
  }

  /** `perType` files the sensor `s` under its type and name. */
  ghost predicate Files(perType: map<string, Dict<Sensor>>, s: Sensor) {
    s.stype in perType && s.name in perType[s.stype].at && perType[s.stype].at[s.name] == s
  }

  lemma SelectedAre(d: Dict<Sensor>, t: string)
    ensures forall n :: n in Select(d, NamesOf(d, t)).at <==> n in d.at && d.at[n].stype == t
    ensures forall n :: n in Select(d, NamesOf(d, t)).at ==> Select(d, NamesOf(d, t)).at[n] == d.at[n]
  {
  }

  /** The invariant in terms of single sensors: both dictionaries know the same
      ones, every type's in the same order, and no type is left without any. */
  ghost predicate Partitioned(x: Index) {
    && (forall n :: n in x.sensors.at ==> Files(x.perType, x.sensors.at[n]))
    && (forall t, n :: t in x.perType && n in x.perType[t].at ==>
          n in x.sensors.at && x.sensors.at[n] == x.perType[t].at[n] && x.sensors.at[n].stype == t)
    && (forall t :: t in x.perType ==>
          x.perType[t].at != map[] && x.perType[t].keys == Filter(x.sensors.keys, NamesOf(x.sensors, t)))
  }

  lemma IndexIsPartition(x: Index)
    requires Keyed(x)
    ensures Good(x) <==> Partitioned(x)
  {
    hide Partitioned, Grouped, Keyed;
    if Good(x) { GoodIsPartitioned(x); }
    if Partitioned(x) {
      forall t ensures Grouped(x, t) { PartitionedIsGrouped(x, t); }
    }
  }

  lemma GoodIsPartitioned(x: Index)
    requires Good(x)
    ensures Partitioned(x)
  {
    forall n | n in x.sensors.at ensures Files(x.perType, x.sensors.at[n]) {
      assert Grouped(x, x.sensors.at[n].stype);
      SelectedAre(x.sensors, x.sensors.at[n].stype);
    }
    forall t | t in x.perType
      ensures x.perType[t].at != map[] && x.perType[t] == Select(x.sensors, NamesOf(x.sensors, t))
    {
      assert Grouped(x, t);
    }
    forall t, n | t in x.perType && n in x.perType[t].at
      ensures n in x.sensors.at && x.sensors.at[n] == x.perType[t].at[n] && x.sensors.at[n].stype == t
    {
      SelectedAre(x.sensors, t);
    }
  }

  lemma PartitionedIsGrouped(x: Index, t: string)
    requires Keyed(x) && Partitioned(x)
    ensures Grouped(x, t)
  {
    var sel := Select(x.sensors, NamesOf(x.sensors, t));
    SelectedAre(x.sensors, t);
    if t in x.perType {
      assert x.perType[t].at == sel.at;
    } else {
      assert sel.at == map[];
      EmptyIsNone(sel);
    }
  }

  lemma EmptyIsNone(d: Dict<Sensor>)
    requires Ok(d) && d.at == map[]
    ensures d == NONE
  {
    OkKeys(d);
  }

  lemma GoodGroup(x: Index, t: string)
    requires Good(x)
    ensures Ok(x.sensors) && Ok(GroupOf(x.perType, t)) && (t in x.perType ==> x.perType[t].at != map[])
    ensures GroupOf(x.perType, t) == Select(x.sensors, NamesOf(x.sensors, t))
    ensures GroupOf(x.perType, t).keys == Filter(x.sensors.keys, NamesOf(x.sensors, t))
    ensures forall n :: n in GroupOf(x.perType, t).at <==> n in x.sensors.at && x.sensors.at[n].stype == t
    ensures forall n :: n in GroupOf(x.perType, t).keys <==> n in x.sensors.at && x.sensors.at[n].stype == t
  {
    assert Grouped(x, t);
    SelectedAre(x.sensors, t);
    OkKeys(GroupOf(x.perType, t));
  }

  /** The index after _register_sensor. */
  function Registered(x: Index, s: Sensor): Index {
    Index(Set(x.sensors, s.name, s), x.perType[s.stype := Set(GroupOf(x.perType, s.stype), s.name, s)])
  }

  /** _unregister_sensor: a failing deletion leaves what was done before it. */
  function Unregister(x: Index, s: Sensor): (Index, Outcome) {
    if s.stype !in x.perType || s.name !in x.perType[s.stype].at then (x, KeyError)
    else
      var group := Remove(x.perType[s.stype], s.name);
      var perType := if group.at == map[] then x.perType - {s.stype} else x.perType[s.stype := group];
      if s.name !in x.sensors.at then (Index(x.sensors, perType), KeyError)
      else (Index(Remove(x.sensors, s.name), perType), Done)
  }

  /** In any state, also one whose dictionaries do not agree: a name that its
      group does not know is refused at once; otherwise it leaves the group, and a
      group it was alone in goes, before the first dictionary is looked at. */
  lemma UnregisterLaw(x: Index, s: Sensor)
    requires Keyed(x)
    ensures var (y, r) := Unregister(x, s);
            && (r == Done <==> s.name in GroupOf(x.perType, s.stype).at && s.name in x.sensors.at)
            && (r != Done ==> r == KeyError && y.sensors == x.sensors)
            && (s.name !in GroupOf(x.perType, s.stype).at ==> y == x)
            && (s.name in GroupOf(x.perType, s.stype).at ==>
                  && (forall t, k :: k in GroupOf(y.perType, t).at <==>
                                       !(t == s.stype && k == s.name) && k in GroupOf(x.perType, t).at)
                  && (s.stype in y.perType ==> y.perType[s.stype].at != map[])
                  && (forall t :: t in x.perType && t != s.stype ==> t in y.perType && y.perType[t] == x.perType[t]))
            && (r == Done ==> forall k :: k in y.sensors.at <==> k != s.name && k in x.sensors.at)
  {
    hide Remove, Ok;
    if s.name in GroupOf(x.perType, s.stype).at {
      RemovedAre(x.perType[s.stype], s.name);
      RemovedAre(x.sensors, s.name);
    }
  }

  lemma RegisteredKeyed(x: Index, s: Sensor)
    requires Keyed(x)
    ensures Keyed(Registered(x, s))
  {
    var y := Registered(x, s);
    assert Ok(GroupOf(x.perType, s.stype));
    forall t | t in y.perType ensures Ok(y.perType[t]) { }
  }

  lemma UnregisterKeyed(x: Index, s: Sensor)
    requires Keyed(x)
    ensures Keyed(Unregister(x, s).0)
  {
  }

  lemma RegisterMoves(x: Index, s: Sensor)
    requires Good(x) && s.name in x.sensors.at && x.sensors.at[s.name].stype != s.stype
    ensures !Good(Registered(x, s))
  {
    var t, y := x.sensors.at[s.name].stype, Registered(x, s);
    assert Grouped(x, t);
    SelectedAre(x.sensors, t);
    assert s.name in GroupOf(y.perType, t).at;
    SelectedAre(y.sensors, t);
    assert !Grouped(y, t);
  }

  lemma RegisterStays(x: Index, s: Sensor, t: string)
    requires Good(x) && (s.name in x.sensors.at ==> x.sensors.at[s.name].stype == s.stype)
    ensures Grouped(Registered(x, s), t)
  {
    hide Good, Ok, Select, Filter;
    var y := Registered(x, s);
    GoodGroup(x, t);
    SelectSet(x.sensors, NamesOf(x.sensors, t), NamesOf(y.sensors, t), s.name, s);
  }

  /** Registration keeps the invariant exactly if it does not move a name from
      one type to another. */
  lemma RegisterKeepsIndex(x: Index, s: Sensor)
    requires Good(x)
    ensures Good(Registered(x, s)) <==> (s.name in x.sensors.at ==> x.sensors.at[s.name].stype == s.stype)
  {
    if s.name in x.sensors.at && x.sensors.at[s.name].stype != s.stype {
      RegisterMoves(x, s);
    } else {
      RegisteredKeyed(x, s);
      forall t ensures Grouped(Registered(x, s), t) { RegisterStays(x, s, t); }
    }
  }

  /** In a good index a sensor can be taken out exactly if its name is filed with
      its type; otherwise nothing changes. */
  lemma UnregisterKeepsIndex(x: Index, s: Sensor)
    requires Good(x)
    ensures var (y, r) := Unregister(x, s);
            && (r == Done <==> s.name in x.sensors.at && x.sensors.at[s.name].stype == s.stype)
            && (r != Done ==> r == KeyError && y == x)
            && (r == Done ==> y.sensors == Remove(x.sensors, s.name)) && Good(y)
  {
    assert Grouped(x, s.stype);
    SelectedAre(x.sensors, s.stype);
    var y := Unregister(x, s).0;
    if s.name in x.sensors.at && x.sensors.at[s.name].stype == s.stype {
      UnregisterKeyed(x, s);
      forall t ensures Grouped(y, t) { UnregisterStays(x, s, t); }
    }
  }

  lemma UnregisterStays(x: Index, s: Sensor, t: string)
    requires Good(x) && s.name in x.sensors.at && x.sensors.at[s.name].stype == s.stype
    ensures Grouped(Unregister(x, s).0, t)
  {
    hide Good, Remove, Select, Ok, Filter;
    var y := Unregister(x, s).0;
    GoodGroup(x, t);
    GoodGroup(x, s.stype);
    RemovedAre(x.sensors, s.name);
    SelectRemove(x.sensors, NamesOf(x.sensors, t), NamesOf(y.sensors, t), s.name);
    var group := Remove(x.perType[s.stype], s.name);
    if group.at == map[] { EmptyIsNone(group); }
  }

  lemma RemovedAre(d: Dict<Sensor>, n: string)
    ensures Remove(d, n).at == d.at - {n}
  {
  }

  /** Creating and destroying a sensor of a new name restores both dictionaries. */
  lemma RegisterUnregister(x: Index, s: Sensor)
    requires Good(x) && s.name !in x.sensors.at
    ensures Unregister(Registered(x, s), s) == (x, Done)
  {
    hide Good, Grouped, Remove, Select, Ok;
    GoodGroup(x, s.stype);
    RemoveSet(x.sensors, s.name, s);
    RemoveSet(GroupOf(x.perType, s.stype), s.name, s);
    var y := Registered(x, s);
    Restored(x.perType, s.stype, y.perType[s.stype]);
  }

  lemma Restored(m: map<string, Dict<Sensor>>, t: string, d: Dict<Sensor>)
    ensures if t in m then m[t := d][t := m[t]] == m else m[t := d] - {t} == m
  {
  }

  // ------------------------------------------------------------ runs

  /** A sensor class, by what its constructor makes of a name. */
  type SensorClass = string -> Sensor

  /** The factory: a class per sensor type. */
  type Factory = map<string, SensorClass>

  /** The dictionaries and the factory. */
  datatype Manager = Manager(index: Index, factory: Factory)

  datatype Op =
    | Create(name: string, stype: string)
    | Destroy(name: string)
    | RegisterType(stype: string, cls: SensorClass)
    | UnregisterType(stype: string)

  /** create_sensor, destroy_sensor, register_sensor_type and unregister_sensor_type. */
  function Step(m: Manager, op: Op): (Manager, Outcome) {
    var (x, f) := (m.index, m.factory);
    match op
    case Create(n, t) =>
      if n in x.sensors.at then (m, AssertionError)
      else if t !in f then (m, KeyError)
      else (Manager(Registered(x, f[t](n)), f), Done)
    case Destroy(n) =>
      if n !in x.sensors.at then (m, AssertionError)
      else
        var (y, r) := Unregister(x, x.sensors.at[n]);
        (Manager(y, f), r)
    case RegisterType(t, cls) =>
      if t in f then (m, AssertionError) else (Manager(x, f[t := cls]), Done)
    case UnregisterType(t) =>
      if t !in f then (m, AssertionError) else (Manager(x, f - {t}), Done)
  }

  // ------------------------------------------------------------ what each operation does

  /** create_sensor: a name in use and an unknown type are refused.  Otherwise the
      new sensor is filed under its own name and type, and nothing else changes. */
  lemma CreateLaw(m: Manager, n: string, t: string)
    requires Keyed(m.index)
    ensures var (m', r) := Step(m, Create(n, t));
            && (r == AssertionError <==> n in m.index.sensors.at)
            && (r == KeyError <==> n !in m.index.sensors.at && t !in m.factory)
            && (r != Done ==> m' == m)
            && (r == Done ==> Added(m, m.factory[t](n), m'))
  {
    if n !in m.index.sensors.at && t in m.factory {
      var s := m.factory[t](n);
      GroupOk(m.index, s.stype);
      SetLaw(m.index.sensors, s.name, s);
      SetLaw(GroupOf(m.index.perType, s.stype), s.name, s);
    }
  }

  lemma GroupOk(x: Index, t: string)
    requires Keyed(x)
    ensures Ok(x.sensors) && Ok(GroupOf(x.perType, t))
  {
  }

  /** `m'` is `m` with `s` as the last sensor, or in the place of one of its name. */
  ghost predicate Added(m: Manager, s: Sensor, m': Manager) {
    var (x, y) := (m.index, m'.index);
    && m'.factory == m.factory
    && y.sensors.keys == (if s.name in x.sensors.keys then x.sensors.keys else x.sensors.keys + [s.name])
    && (forall k :: k in y.sensors.at <==> k == s.name || k in x.sensors.at)
    && (forall k :: k in y.sensors.at ==> y.sensors.at[k] == if k == s.name then s else x.sensors.at[k])
    && (forall t :: t in y.perType <==> t == s.stype || t in x.perType)
    && (forall t :: t in y.perType && t != s.stype ==> y.perType[t] == x.perType[t])
    && (forall k :: k in y.perType[s.stype].at <==> k == s.name || k in GroupOf(x.perType, s.stype).at)
    && (forall k :: k in y.perType[s.stype].at ==>
          y.perType[s.stype].at[k] == if k == s.name then s else GroupOf(x.perType, s.stype).at[k])
  }

  /** destroy_sensor: an unknown name is refused.  Otherwise that name, and no
      other, leaves both dictionaries; the others stay, and stay in order. */
  lemma DestroyLaw(m: Manager, n: string)
    requires Good(m.index)
    ensures var (m', r) := Step(m, Destroy(n));
            && (r == if n in m.index.sensors.at then Done else AssertionError)
            && (r != Done ==> m' == m)
            && (r == Done ==> Taken(m, n, m'))
  {
    hide Good, Unregister, Remove, Ok;
    if n in m.index.sensors.at {
      var x, s := m.index, m.index.sensors.at[n];
      var y := Unregister(x, s).0;
      GoodKeyed(x);
      KeyedSensors(x);
      UnregisterKeepsIndex(x, s);
      var before, behind := Around(x.sensors, n);
      RemoveLaw(x.sensors, before, n, behind);
      forall t
        ensures forall k :: k in GroupOf(y.perType, t).at <==> k != n && k in GroupOf(x.perType, t).at
        ensures forall k :: k in GroupOf(y.perType, t).at ==> GroupOf(y.perType, t).at[k] == GroupOf(x.perType, t).at[k]
      {
        GroupEntries(x, t);
        GroupEntries(y, t);
      }
    }
  }

  /** In a good index a group has the entries of its type. */
  lemma GroupEntries(x: Index, t: string)
    requires Good(x)
    ensures forall n :: n in GroupOf(x.perType, t).at <==> n in x.sensors.at && x.sensors.at[n].stype == t
    ensures forall n :: n in GroupOf(x.perType, t).at ==> GroupOf(x.perType, t).at[n] == x.sensors.at[n]
  {
    hide Good, Select;
    GoodGroup(x, t);
    SelectedAre(x.sensors, t);
  }

  lemma Around(d: Dict<Sensor>, n: string) returns (before: seq<string>, behind: seq<string>)
    requires Ok(d) && n in d.at
    ensures d.keys == before + [n] + behind
  {
    var i :| 0 <= i < |d.keys| && d.keys[i] == n;
    before, behind := d.keys[..i], d.keys[i + 1..];
  }

  /** `m'` is `m` without the sensor called `n`. */
  ghost predicate Taken(m: Manager, n: string, m': Manager) {
    var (x, y) := (m.index, m'.index);
    && m'.factory == m.factory
    && (exists before, behind :: x.sensors.keys == before + [n] + behind && y.sensors.keys == before + behind)
    && (forall k :: k in y.sensors.at <==> k != n && k in x.sensors.at)
    && (forall k :: k in y.sensors.at ==> y.sensors.at[k] == x.sensors.at[k])
    && (forall t, k :: k in GroupOf(y.perType, t).at <==> k != n && k in GroupOf(x.perType, t).at)
    && (forall t, k :: k in GroupOf(y.perType, t).at ==> GroupOf(y.perType, t).at[k] == GroupOf(x.perType, t).at[k])
  }

  /** Creating a sensor of a new name and destroying it gives back the manager. */
  lemma CreateDestroy(m: Manager, n: string, t: string)
    requires Good(m.index) && n !in m.index.sensors.at && t in m.factory && m.factory[t](n).name == n
    ensures var (m1, r1) := Step(m, Create(n, t));
            var (m2, r2) := Step(m1, Destroy(n));
            r1 == r2 == Done && m2 == m
  {
    hide Good, Registered, Unregister;
    RegisteredHas(m.index, m.factory[t](n));
    RegisterUnregister(m.index, m.factory[t](n));
  }

  /** The factory: a type is registered once, and used by the next create_sensor;
      an unregistered one is unknown again.  The sensors stay. */
  lemma TypeLaw(m: Manager, t: string, c: SensorClass, n: string)
    ensures var (m1, r1) := Step(m, RegisterType(t, c));
            && r1 == (if t in m.factory then AssertionError else Done) && m1.index == m.index
            && (r1 != Done ==> m1 == m)
            && (r1 == Done ==> (forall u :: u in m1.factory <==> u == t || u in m.factory) && m1.factory[t] == c &&
                               forall u :: u in m.factory ==> m1.factory[u] == m.factory[u])
    ensures var (m2, r2) := Step(m, UnregisterType(t));
            && r2 == (if t in m.factory then Done else AssertionError) && m2.index == m.index
            && (r2 != Done ==> m2 == m)
            && (r2 == Done ==> (forall u :: u in m2.factory <==> u != t && u in m.factory) &&
                               (forall u :: u in m2.factory ==> m2.factory[u] == m.factory[u]) &&
                               (n !in m.index.sensors.at ==> Step(m2, Create(n, t)).1 == KeyError))
  {
  }

  function Run(m: Manager, ops: seq<Op>): Manager
    decreases |ops|
  {
    if ops == [] then m else Run(Step(m, ops[0]).0, ops[1..])
  }

  /** Two classes make sensors of the same name and of different types, the first
      one from a name that it ignores. */
  predicate Clash(c: SensorClass, n: string, d: SensorClass, k: string) {
    c(n).name == d(k).name && c(n).stype != d(k).stype && c(n).name != n
  }

  ghost predicate Clashless(pool: iset<SensorClass>) {
    forall c, n, d, k :: c in pool && d in pool ==> !Clash(c, n, d, k)
  }

  /** Every class, registered or used for a sensor, is in `pool`. */
  ghost predicate From(m: Manager, pool: iset<SensorClass>) {
    && (forall t :: t in m.factory ==> m.factory[t] in pool)
    && (forall n :: n in m.index.sensors.at ==> exists c, k :: c in pool && c(k) == m.index.sensors.at[n])
  }

  ghost predicate Uses(ops: seq<Op>, pool: iset<SensorClass>) {
    forall i :: 0 <= i < |ops| && ops[i].RegisterType? ==> ops[i].cls in pool
  }

  /** A step keeps the invariant, and destroy raises no KeyError, if no two
      classes clash. */
  lemma StepKeepsIndex(m: Manager, op: Op, pool: iset<SensorClass>)
    requires Good(m.index) && From(m, pool) && Clashless(pool) && (op.RegisterType? ==> op.cls in pool)
    ensures Good(Step(m, op).0.index) && From(Step(m, op).0, pool) && !(op.Destroy? && Step(m, op).1.KeyError?)
  {
    hide Good, Unregister;
    match op
    case Create(n, t) =>
      if n !in m.index.sensors.at && t in m.factory {
        CreateKeepsType(m, n, t, pool);
        RegisterKeepsIndex(m.index, m.factory[t](n));
      }
    case Destroy(n) =>
      if n in m.index.sensors.at {
        UnregisterKeepsIndex(m.index, m.index.sensors.at[n]);
        GoodKeyed(m.index);
        RemovedAre(m.index.sensors, n);
      }
    case RegisterType(t, cls) =>
    case UnregisterType(t) =>
  }

  lemma GoodKeyed(x: Index)
    requires Good(x)
    ensures Keyed(x)
  {
  }

  lemma CreateKeepsType(m: Manager, n: string, t: string, pool: iset<SensorClass>)
    requires Good(m.index) && From(m, pool) && Clashless(pool)
    requires n !in m.index.sensors.at && t in m.factory
    ensures var s := m.factory[t](n);
            s.name in m.index.sensors.at ==> m.index.sensors.at[s.name].stype == s.stype
  {
    var s := m.factory[t](n);
    if s.name in m.index.sensors.at {
      GoodKeyed(m.index);
      var c, k :| c in pool && c(k) == m.index.sensors.at[s.name];
      assert !Clash(m.factory[t], n, c, k);
    }
  }

  lemma {:induction false} RunKeepsIndex(m: Manager, ops: seq<Op>, pool: iset<SensorClass>)
    requires Good(m.index) && From(m, pool) && Clashless(pool) && Uses(ops, pool)
    ensures Good(Run(m, ops).index)
    decreases |ops|
  {
    hide Good, From, Clashless, Step;
    if ops != [] {
      StepKeepsIndex(m, ops[0], pool);
      RunKeepsIndex(Step(m, ops[0]).0, ops[1..], pool);
    }
  }

  /** Whatever the classes do, sensors are filed under their own names. */
  lemma {:induction false} RunKeyed(m: Manager, ops: seq<Op>)
    requires Keyed(m.index)
    ensures Keyed(Run(m, ops).index)
    decreases |ops|
  {
    hide Keyed, Registered, Unregister;
    if ops != [] {
      var x, f := m.index, m.factory;
      match ops[0] {
        case Create(n, t) => if t in f { RegisteredKeyed(x, f[t](n)); }
        case Destroy(n) => if n in x.sensors.at { UnregisterKeyed(x, x.sensors.at[n]); }
        case RegisterType(_, _) =>
        case UnregisterType(_) =>
      }
      RunKeyed(Step(m, ops[0]).0, ops[1..]);
    }
  }

  lemma NoSensorsGood()
    ensures Good(NO_SENSORS)
  {
    forall t ensures Grouped(NO_SENSORS, t) {
      SelectedAre(NONE, t);
      assert Select(NONE, NamesOf(NONE, t)).at == map[];
    }
  }

  lemma RegisteredHas(x: Index, s: Sensor)
    ensures Registered(x, s).sensors.at == x.sensors.at[s.name := s]
  {
  }

  /** The sensors of two clashing classes spoil the index. */
  lemma ClashSpoils(c: SensorClass, n: string, d: SensorClass, k: string)
    requires Clash(c, n, d, k)
    ensures n !in Registered(NO_SENSORS, d(k)).sensors.at
    ensures !Good(Registered(Registered(NO_SENSORS, d(k)), c(n)))
  {
    hide Good, Registered;
    NoSensorsGood();
    RegisteredHas(NO_SENSORS, d(k));
    RegisterKeepsIndex(NO_SENSORS, d(k));
    RegisterKeepsIndex(Registered(NO_SENSORS, d(k)), c(n));
  }

  /** Two clashing classes of the factory break the invariant in two steps. */
  lemma ClashBreaks(f: Factory, t: string, n: string, u: string, k: string)
    requires t in f && u in f && Clash(f[t], n, f[u], k)
    ensures !Good(Run(Manager(NO_SENSORS, f), [Create(k, u), Create(n, t)]).index)
  {
    hide Good, Registered, Clash;
    ClashSpoils(f[t], n, f[u], k);
    var ops := [Create(k, u), Create(n, t)];
    var y := Registered(NO_SENSORS, f[u](k));
    assert ops[1..] == [Create(n, t)] && ops[1..][1..] == [];
    assert Run(Manager(y, f), ops[1..]) == Run(Manager(Registered(y, f[t](n)), f), []);
  }

  /** Replacing the class of a type, and creating a sensor of it. */
  function Install(t: string, c: SensorClass, n: string): seq<Op> {
    [UnregisterType(t), RegisterType(t, c), Create(n, t)]
  }

  lemma RunCons(m: Manager, op: Op, rest: seq<Op>)
    ensures Run(m, [op] + rest) == Run(Step(m, op).0, rest)
  {
    assert ([op] + rest)[1..] == rest;
  }

  lemma Replaced(f: Factory, t: string, c: SensorClass)
    ensures (f - {t})[t := c] == f[t := c] && (t !in f ==> f - {t} == f)
  {
  }

  lemma InstallRuns(m: Manager, t: string, c: SensorClass, n: string, rest: seq<Op>)
    requires n !in m.index.sensors.at
    ensures Run(m, Install(t, c, n) + rest) == Run(Manager(Registered(m.index, c(n)), m.factory[t := c]), rest)
  {
    hide Registered, Run;
    var m1, m2 := Manager(m.index, m.factory - {t}), Manager(m.index, m.factory[t := c]);
    Replaced(m.factory, t, c);
    var create := [Create(n, t)] + rest;
    var register := [RegisterType(t, c)] + create;
    assert Install(t, c, n) + rest == [UnregisterType(t)] + register;
    RunCons(m, UnregisterType(t), register);
    RunCons(m1, RegisterType(t, c), create);
    RunCons(m2, Create(n, t), rest);
  }

  /** So do two clashing classes that are registered on the way. */
  lemma ClashBreaksLater(f: Factory, c: SensorClass, n: string, d: SensorClass, k: string) returns (ops: seq<Op>)
    requires Clash(c, n, d, k)
    ensures Uses(ops, iset{c, d}) && !Good(Run(Manager(NO_SENSORS, f), ops).index)
  {
    hide Good, Registered, Clash, Run;
    ClashSpoils(c, n, d, k);
    var t := "";
    ops := Install(t, d, k) + Install(t, c, n);
    var y := Registered(NO_SENSORS, d(k));
    InstallRuns(Manager(NO_SENSORS, f), t, d, k, Install(t, c, n));
    assert Install(t, c, n) + [] == Install(t, c, n);
    InstallRuns(Manager(y, f[t := d]), t, c, n, []);
    RunNothing(Manager(Registered(y, c(n)), f[t := d][t := c]));
  }

  lemma RunNothing(m: Manager)
    ensures Run(m, []) == m
  {
  }

  /** Over every run of all four operations that registers classes of `pool`, the
      second dictionary stays the partition of the first, exactly if no two
      classes of `pool` clash. */
  lemma RunsKeepIndexIff(f: Factory, pool: iset<SensorClass>)
    requires forall t :: t in f ==> f[t] in pool
    ensures (forall ops :: Uses(ops, pool) ==> Good(Run(Manager(NO_SENSORS, f), ops).index)) <==> Clashless(pool)
  {
    hide Good, Run, Clash;
    NoSensorsGood();
    if Clashless(pool) {
      forall ops | Uses(ops, pool) ensures Good(Run(Manager(NO_SENSORS, f), ops).index) {
        RunKeepsIndex(Manager(NO_SENSORS, f), ops, pool);
      }
    } else {
      var c, n, d, k :| c in pool && d in pool && Clash(c, n, d, k);
      var ops := ClashBreaksLater(f, c, n, d, k);
      assert Uses(ops, pool);
    }
  }

  /** Sensors are created and destroyed, and the factory is left alone. */
  ghost predicate TypesFixed(ops: seq<Op>) {
    forall i :: 0 <= i < |ops| ==> ops[i].Create? || ops[i].Destroy?
  }

  /** The same for runs that leave the factory alone, and its own classes. */
  lemma FixedRunsKeepIndexIff(f: Factory)
    ensures (forall ops :: TypesFixed(ops) ==> Good(Run(Manager(NO_SENSORS, f), ops).index))
            <==> forall t, n, u, k :: t in f && u in f ==> !Clash(f[t], n, f[u], k)
  {
    hide Good, Run, Clash;
    var pool := iset t | t in f :: f[t];
    NoSensorsGood();
    if forall t, n, u, k :: t in f && u in f ==> !Clash(f[t], n, f[u], k) {
      forall ops | TypesFixed(ops) ensures Good(Run(Manager(NO_SENSORS, f), ops).index) {
        RunKeepsIndex(Manager(NO_SENSORS, f), ops, pool);
      }
    } else {
      var t, n, u, k :| t in f && u in f && Clash(f[t], n, f[u], k);
      ClashBreaks(f, t, n, u, k);
      assert TypesFixed([Create(k, u), Create(n, t)]);
    }
  }

  /** Classes that keep the name they are given never clash. */
  lemma KeptNamesDoNotClash(f: Factory, ops: seq<Op>, pool: iset<SensorClass>)
    requires forall c, n :: c in pool ==> c(n).name == n
    requires (forall t :: t in f ==> f[t] in pool) && Uses(ops, pool)
    ensures Good(Run(Manager(NO_SENSORS, f), ops).index)
  {
    hide Good, Run;
    assert Clashless(pool);
    RunsKeepIndexIff(f, pool);
  }

  /** Classes "a" and "b" that call every sensor "x" do. */
  lemma IgnoredNamesClash()
    ensures var f := map["a" := (n: string) => Sensor("x", "a", 0), "b" := (n: string) => Sensor("x", "b", 1)];
            !Good(Run(Manager(NO_SENSORS, f), [Create("p", "a"), Create("q", "b")]).index)
  {
    var f := map["a" := (n: string) => Sensor("x", "a", 0), "b" := (n: string) => Sensor("x", "b", 1)];
    assert f["a"]("p") == Sensor("x", "a", 0) && f["b"]("q") == Sensor("x", "b", 1);
    ClashBreaks(f, "b", "q", "a", "p");
  }

  lemma KeyedSensors(x: Index)
    requires Keyed(x)
    ensures Ok(x.sensors) && NoDuplicates(x.sensors.keys)
    ensures forall n :: n in x.sensors.keys <==> n in x.sensors.at
    ensures forall n :: n in x.sensors.at ==> x.sensors.at[n].name == n
  {
  }

  class SensorManager {
    var sensors: Dict<Sensor>
    var sensorsPerType: map<string, Dict<Sensor>>
    var sensorFactory: Factory

    constructor (f: Factory)
      ensures Both() == NO_SENSORS && sensorFactory == f
    {
      sensors, sensorsPerType, sensorFactory := NONE, map[], f;
    }

    function Both(): Index
      reads this
    {
      Index(sensors, sensorsPerType)
    }

    function All(): Manager
      reads this
    {
      Manager(Both(), sensorFactory)
    }

    /** _register_sensor. */
    method RegisterSensor(sensor: Sensor)
      modifies this`sensors, this`sensorsPerType
      ensures Both() == Registered(old(Both()), sensor)
    {
      var name, stype := sensor.name, sensor.stype;
      sensors := Set(sensors, name, sensor);
      if stype !in sensorsPerType {
        sensorsPerType := sensorsPerType[stype := NONE];
      }
      sensorsPerType := sensorsPerType[stype := Set(sensorsPerType[stype], name, sensor)];
    }

    /** _unregister_sensor. */
    method UnregisterSensor(sensor: Sensor) returns (r: Outcome)
      modifies this`sensors, this`sensorsPerType
      ensures (Both(), r) == Unregister(old(Both()), sensor)
    {
      hide Remove, Select;
      var name, stype := sensor.name, sensor.stype;
      if stype !in sensorsPerType || name !in sensorsPerType[stype].at { return KeyError; }
      sensorsPerType := sensorsPerType[stype := Remove(sensorsPerType[stype], name)];
      if sensorsPerType[stype].at == map[] {
        sensorsPerType := sensorsPerType - {stype};
        assert sensorsPerType == old(sensorsPerType) - {stype};
      }
      if name !in sensors.at { return KeyError; }
      sensors := Remove(sensors, name);
      r := Done;
    }

    /** create_sensor. */
    method CreateSensor(name: string, stype: string) returns (r: Outcome)
      modifies this
      ensures (All(), r) == Step(old(All()), Create(name, stype))
    {
      if name in sensors.at { return AssertionError; }
      if stype !in sensorFactory { return KeyError; }
      RegisterSensor(sensorFactory[stype](name));
      r := Done;
    }

    /** destroy_sensor. */
    method DestroySensor(name: string) returns (r: Outcome)
      modifies this
      ensures (All(), r) == Step(old(All()), Destroy(name))
    {
      if name !in sensors.at { return AssertionError; }
      r := UnregisterSensor(sensors.at[name]);
    }

    /** register_sensor_type; a registered type raises AssertionError. */
    method RegisterSensorType(stype: string, cls: SensorClass) returns (r: Outcome)
      modifies this
      ensures (All(), r) == Step(old(All()), RegisterType(stype, cls))
    {
      if stype in sensorFactory { return AssertionError; }
      sensorFactory := sensorFactory[stype := cls];
      r := Done;
    }

    /** unregister_sensor_type; the sensors of that type stay. */
    method UnregisterSensorType(stype: string) returns (r: Outcome)
      modifies this
      ensures (All(), r) == Step(old(All()), UnregisterType(stype))
    {
      if stype !in sensorFactory { return AssertionError; }
      sensorFactory := sensorFactory - {stype};
      r := Done;
    }

    /** get_sensors_info: name and type of every sensor, in the order of creation. */
    method GetSensorsInfo() returns (info: Dict<string>)
      requires Keyed(Both())
      ensures Ok(info) && info.keys == sensors.keys
      ensures forall n :: n in sensors.at ==> info.at[n] == sensors.at[n].stype
    {
      hide Ok, NoDuplicates, Keyed;
      KeyedSensors(Both());
      info := EmptyDict();
      for i := 0 to |sensors.keys|
        invariant Ok(info) && info.keys == sensors.keys[..i]
        invariant forall n :: n in info.at ==> n in sensors.at && info.at[n] == sensors.at[n].stype
      {
        OkKeys(info);
        NextIsNew(sensors.keys, i);
        var sensor := sensors.at[sensors.keys[i]];
        info := Set(info, sensor.name, sensor.stype);
      }
      OkKeys(info);
      assert sensors.keys[..|sensors.keys|] == sensors.keys;
    }

    /** get_sensor_names_per_type: the names that get_sensors_info reports with
        this type, in the same order, as long as the invariant holds. */
    method GetSensorNamesPerType(stype: string) returns (names: seq<string>)
      ensures names == GroupOf(sensorsPerType, stype).keys
      ensures Good(Both()) ==> names == Filter(sensors.keys, NamesOf(sensors, stype))
      ensures Good(Both()) ==> forall n :: n in names <==> n in sensors.at && sensors.at[n].stype == stype
    {
      hide Good, Filter;
      names := [];
      if stype in sensorsPerType {
        names := sensorsPerType[stype].keys;
      }
      if Good(Both()) {
        GoodGroup(Both(), stype);
      }
    }
  }
}
