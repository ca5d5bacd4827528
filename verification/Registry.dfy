/**
  The registry of shared client instances: a map from key to weak pointer, the same in
  bt_action_node.hpp, bt_service_node.hpp and bt_topic_sub_node.hpp. Shared pointers are modelled
  by explicit reference counts; an instance is live while its count is positive.
 */
module Registry {
  import opened Common

  type Key = string
  type InstanceId = nat
  type HolderId = nat

  /**
    `table` is the static map of weak pointers, `refs` the strong counts, `held` the shared
    pointer member of each behavior tree node, `keyOf` the key an instance was made for.
   */
  datatype RegistryState = RegistryState(
    table: map<Key, InstanceId>,
    refs: map<InstanceId, nat>,
    keyOf: map<InstanceId, Key>,
    held: map<HolderId, InstanceId>,
    next: InstanceId)

  const EMPTY: RegistryState := RegistryState(map[], map[], map[], map[], 0)

  // ---------- keys ----------

  /** Fully qualified name of the ROS node, a slash, the name of the resource. */
  function KeyFor(node: string, resource: string): Key {
    node + "/" + resource
  }

  /** The key of (longer, resource) is also the key of a shorter node name. */
  predicate Overlaps(longer: string, resource: string, shorter: string, other: string) {
    |shorter| < |longer| && longer[..|shorter|] == shorter && longer[|shorter|] == '/' &&
    other == longer[|shorter| + 1..] + "/" + resource
  }

  /** Two pairs share a key exactly when they are equal or a slash moves from one name to the other. */
  lemma KeyCollisionIsExact(n1: string, r1: string, n2: string, r2: string)
    ensures KeyFor(n1, r1) == KeyFor(n2, r2) <==>
            (n1 == n2 && r1 == r2) || Overlaps(n1, r1, n2, r2) || Overlaps(n2, r2, n1, r1)
  {
    if |n1| == |n2| {
      SameLengthKeys(n1, r1, n2, r2);
    } else if |n2| < |n1| {
      LongerKeys(n1, r1, n2, r2);
    } else {
      LongerKeys(n2, r2, n1, r1);
    }
  }

  lemma SameLengthKeys(n1: string, r1: string, n2: string, r2: string)
    requires |n1| == |n2|
    ensures KeyFor(n1, r1) == KeyFor(n2, r2) ==> n1 == n2 && r1 == r2
  {
    var k1, k2 := KeyFor(n1, r1), KeyFor(n2, r2);
    assert k1[..|n1|] == n1 && k1[|n1| + 1..] == r1;
    assert k2[..|n2|] == n2 && k2[|n2| + 1..] == r2;
  }

  lemma LongerKeys(n1: string, r1: string, n2: string, r2: string)
    requires |n2| < |n1|
    ensures KeyFor(n1, r1) == KeyFor(n2, r2) <==> Overlaps(n1, r1, n2, r2)
  {
    var k1, k2 := KeyFor(n1, r1), KeyFor(n2, r2);
    assert k1 == n1[..|n2|] + [n1[|n2|]] + (n1[|n2| + 1..] + "/" + r1);
    assert k2[..|n2|] == n2 && k2[|n2|] == '/' && k2[|n2| + 1..] == r2;
    assert k1[..|n2|] == n1[..|n2|] && k1[|n2|] == n1[|n2|] && k1[|n2| + 1..] == n1[|n2| + 1..] + "/" + r1;
    if k1[..|n2|] == k2[..|n2|] && k1[|n2|] == k2[|n2|] && k1[|n2| + 1..] == k2[|n2| + 1..] {
      assert k1 == k1[..|n2|] + [k1[|n2|]] + k1[|n2| + 1..];
      assert k2 == k2[..|n2|] + [k2[|n2|]] + k2[|n2| + 1..];
    }
  }

  /** Keys identify the pair when resource names contain no slash, and always within one ROS node. */
  lemma KeysAreInjective(n1: string, r1: string, n2: string, r2: string)
    requires n1 == n2 || ('/' !in r1 && '/' !in r2)
    requires KeyFor(n1, r1) == KeyFor(n2, r2)
    ensures n1 == n2 && r1 == r2
  {
    KeyCollisionIsExact(n1, r1, n2, r2);
    OverlapNeedsSlash(n1, r1, n2, r2);
    OverlapNeedsSlash(n2, r2, n1, r1);
  }

  lemma OverlapNeedsSlash(longer: string, resource: string, shorter: string, other: string)
    ensures Overlaps(longer, resource, shorter, other) ==> longer != shorter && '/' in other
  {
    if Overlaps(longer, resource, shorter, other) {
      assert other[|longer| - |shorter| - 1] == '/';
    }
  }

  /** Node "/a" with "b/c" and node "/a/b" with "c" share a key. */
  lemma KeysCollide()
    ensures KeyFor("/a", "b/c") == KeyFor("/a/b", "c")
  {
  }

  // ---------- operations ----------

  predicate Live(r: RegistryState, i: InstanceId) {
    i in r.refs && r.refs[i] > 0
  }

  function AddRef(r: RegistryState, i: InstanceId): RegistryState {
    if i in r.refs then r.(refs := r.refs[i := r.refs[i] + 1]) else r
  }

  function DropRef(r: RegistryState, i: InstanceId): RegistryState {
    if Live(r, i) then r.(refs := r.refs[i := r.refs[i] - 1]) else r
  }

  /** Assigning a shared pointer: the new instance gains a reference before the old one loses its. */
  function Assign(r: RegistryState, n: HolderId, i: InstanceId): RegistryState {
    var up := AddRef(r, i);
    var down := if n in r.held then DropRef(up, r.held[n]) else up;
    down.(held := down.held[n := i])
  }

  function Make(r: RegistryState, key: Key): RegistryState {
    r.(refs := r.refs[r.next := 0], keyOf := r.keyOf[r.next := key], next := r.next + 1)
  }

  /** The lookup, and a new instance when the key is absent or its instance has expired. */
  function Acquire(r: RegistryState, n: HolderId, key: Key): RegistryState {
    if key in r.table && Live(r, r.table[key]) then Assign(r, n, r.table[key])
    else Assign(Make(r, key), n, r.next).(table := r.table[key := r.next])
  }

  /** The holder resets its pointer, or is destroyed. */
  function Release(r: RegistryState, n: HolderId): RegistryState {
    if n !in r.held then r
    else DropRef(r, r.held[n]).(held := r.held - {n})
  }

  datatype Op =
    | Create(holder: HolderId, node: string, resource: string, nodeAlive: bool)
    | Drop(holder: HolderId)

  /** createClient throws before it touches anything. */
  predicate Refused(op: Op) {
    op.Create? && (op.resource == "" || !op.nodeAlive)
  }

  function Apply(r: RegistryState, op: Op): RegistryState {
    if Refused(op) then r else
    match op
    case Create(n, node, resource, _) => Acquire(r, n, KeyFor(node, resource))
    case Drop(n) => Release(r, n)
  }

  datatype History = New | Did(past: History, op: Op)

  function After(h: History): RegistryState {
    match h
    case New => EMPTY
    case Did(past, op) => Apply(After(past), op)
  }

  /** What a holder has asked for last, read from the history alone. */
  function Asked(h: History, n: HolderId): Option<(string, string)> {
    match h
    case New => None
    case Did(past, op) =>
      if Refused(op) || op.holder != n then Asked(past, n)
      else if op.Create? then Some((op.node, op.resource))
      else None
  }

  // ---------- the invariant ----------

  function Holders(held: map<HolderId, InstanceId>, i: InstanceId): set<HolderId> {
    set n | n in held && held[n] == i
  }

  ghost predicate Counted(r: RegistryState) {
    forall i :: i in r.refs ==> r.refs[i] == |Holders(r.held, i)|
  }

  ghost predicate Linked(r: RegistryState) {
    && (forall i: InstanceId :: i in r.refs <==> i < r.next)
    && (forall i: InstanceId :: i in r.keyOf <==> i < r.next)
    && (forall n :: n in r.held ==> r.held[n] < r.next)
    && (forall k :: k in r.table ==> r.table[k] < r.next && r.keyOf[r.table[k]] == k)
    && (forall i :: Live(r, i) ==> r.keyOf[i] in r.table && r.table[r.keyOf[i]] == i)
  }

  ghost predicate Valid(r: RegistryState) {
    Counted(r) && Linked(r)
  }

  lemma HoldersOfAssigned(held: map<HolderId, InstanceId>, n: HolderId, i: InstanceId, j: InstanceId)
    ensures Holders(held[n := i], j) == if i == j then Holders(held, j) + {n} else Holders(held, j) - {n}
  {
  }

  lemma HeldIsLive(r: RegistryState, n: HolderId)
    requires Valid(r) && n in r.held
    ensures Live(r, r.held[n])
  {
    assert n in Holders(r.held, r.held[n]);
  }

  lemma JoinValid(r: RegistryState, n: HolderId, key: Key)
    requires Valid(r) && key in r.table && Live(r, r.table[key])
    ensures var a := Acquire(r, n, key); Valid(a) && a.held[n] == r.table[key] && a.keyOf == r.keyOf
  {
    AssignCounted(r, n, r.table[key]);
  }

  lemma MakeCounted(r: RegistryState, key: Key)
    requires Valid(r)
    ensures Counted(Make(r, key))
    ensures forall i :: Live(Make(r, key), i) <==> Live(r, i)
  {
    assert Holders(r.held, r.next) == {};
  }

  lemma MakeAndJoinValid(r: RegistryState, n: HolderId, key: Key)
    requires Valid(r) && !(key in r.table && Live(r, r.table[key]))
    ensures var a := Acquire(r, n, key);
            Valid(a) && a.held[n] == r.next && a.keyOf == r.keyOf[r.next := key]
  {
    MakeCounted(r, key);
    var m := Make(r, key);
    AssignCounted(m, n, r.next);
    AssignFrame(m, n, r.next);
    MakeLinked(r, n, key, Assign(m, n, r.next));
  }

  lemma MakeLinked(r: RegistryState, n: HolderId, key: Key, a: RegistryState)
    requires Linked(r) && !(key in r.table && Live(r, r.table[key]))
    requires a.table == r.table && a.keyOf == r.keyOf[r.next := key] && a.next == r.next + 1
    requires a.refs.Keys == r.refs.Keys + {r.next} && a.held == r.held[n := r.next]
    requires forall i :: Live(a, i) ==> Live(r, i) || i == r.next
    ensures Linked(a.(table := r.table[key := r.next]))
  {
    var b := a.(table := r.table[key := r.next]);
    forall i | Live(b, i) ensures b.keyOf[i] in b.table && b.table[b.keyOf[i]] == i {
      assert Live(a, i);
    }
  }

  /** Assigning moves references around and nothing else. */
  lemma AssignFrame(r: RegistryState, n: HolderId, i: InstanceId)
    requires i in r.refs
    ensures var a := Assign(r, n, i);
            && a.table == r.table && a.keyOf == r.keyOf && a.next == r.next
            && a.refs.Keys == r.refs.Keys && a.held == r.held[n := i]
  {
  }

  /** The count of one instance after an assignment. */
  lemma AssignedCount(r: RegistryState, n: HolderId, i: InstanceId, j: InstanceId)
    requires Counted(r) && i in r.refs && j in r.refs && (n in r.held ==> r.held[n] in r.refs)
    ensures var a := Assign(r, n, i); j in a.refs && a.refs[j] == |Holders(a.held, j)|
  {
    HoldersOfAssigned(r.held, n, i, j);
    assert n in Holders(r.held, j) <==> n in r.held && r.held[n] == j;
    if n in r.held {
      assert n in Holders(r.held, r.held[n]);
    }
  }

  lemma AssignCounted(r: RegistryState, n: HolderId, i: InstanceId)
    requires Counted(r) && i in r.refs && (forall m :: m in r.held ==> r.held[m] in r.refs)
    ensures Counted(Assign(r, n, i))
    ensures forall j :: Live(Assign(r, n, i), j) ==> Live(r, j) || j == i
  {
    var a := Assign(r, n, i);
    AssignFrame(r, n, i);
    forall j | j in a.refs ensures a.refs[j] == |Holders(a.held, j)| {
      AssignedCount(r, n, i, j);
    }
  }

  lemma ReleaseValid(r: RegistryState, n: HolderId)
    requires Valid(r)
    ensures Valid(Release(r, n))
  {
    if n in r.held {
      HeldIsLive(r, n);
      var a := Release(r, n);
      forall j | j in a.refs ensures a.refs[j] == |Holders(a.held, j)| {
        assert Holders(a.held, j) == Holders(r.held, j) - {n};
        assert n in Holders(r.held, j) <==> r.held[n] == j;
      }
    }
  }

  // ---------- main results ----------

  /** Every holder holds an instance made for the key it asked for last, and nothing else. */
  ghost predicate HoldsAsked(h: History) {
    var r := After(h);
    forall n ::
      && (n in r.held <==> Asked(h, n).Some?)
      && (n in r.held ==>
            r.held[n] in r.keyOf && r.keyOf[r.held[n]] == KeyFor(Asked(h, n).value.0, Asked(h, n).value.1))
  }

  /** Whether or not the key has a live instance, the holder ends up with one made for it. */
  lemma AcquireValid(r: RegistryState, n: HolderId, key: Key)
    requires Valid(r)
    ensures var a := Acquire(r, n, key);
            && Valid(a)
            && n in a.held && a.held[n] in a.keyOf && a.keyOf[a.held[n]] == key
            && (forall j :: j in r.keyOf ==> j in a.keyOf && a.keyOf[j] == r.keyOf[j])
  {
    AcquireHeld(r, n, key);
    if key in r.table && Live(r, r.table[key]) {
      JoinValid(r, n, key);
    } else {
      MakeAndJoinValid(r, n, key);
    }
  }

  lemma {:induction false} HistoryValid(h: History)
    ensures Valid(After(h))
    ensures HoldsAsked(h)
  {
    if h.Did? && !Refused(h.op) {
      HistoryValid(h.past);
      match h.op
      case Create(n, node, resource, _) => CreateKeeps(h.past, n, node, resource);
      case Drop(n) => ReleaseValid(After(h.past), n);
    } else if h.Did? {
      HistoryValid(h.past);
    }
  }

  lemma CreateKeeps(h: History, n: HolderId, node: string, resource: string)
    requires Valid(After(h)) && HoldsAsked(h) && resource != ""
    ensures var g := Did(h, Create(n, node, resource, true)); Valid(After(g)) && HoldsAsked(g)
  {
    var r, g := After(h), Did(h, Create(n, node, resource, true));
    var a := Acquire(r, n, KeyFor(node, resource));
    AcquireValid(r, n, KeyFor(node, resource));
    AcquireHeld(r, n, KeyFor(node, resource));
    assert After(g) == a;
    forall m: HolderId
      ensures m in a.held <==> Asked(g, m).Some?
      ensures m in a.held ==>
                a.held[m] in a.keyOf && a.keyOf[a.held[m]] == KeyFor(Asked(g, m).value.0, Asked(g, m).value.1)
    {
      assert m != n ==> Asked(g, m) == Asked(h, m) && (m in a.held <==> m in r.held);
    }
  }

  /** A createClient that does not throw leaves its caller with an instance for the key. */
  lemma CreateHolds(h: History, n: HolderId, node: string, resource: string)
    requires resource != ""
    ensures var r := After(Did(h, Create(n, node, resource, true)));
            n in r.held && r.held[n] in r.keyOf && r.keyOf[r.held[n]] == KeyFor(node, resource)
  {
    var g := Did(h, Create(n, node, resource, true));
    HistoryValid(g);
    assert Asked(g, n) == Some((node, resource));
  }

  /** createClient throws, without effect, exactly for an empty name or a ROS node that is gone. */
  lemma CreateIsExact(h: History, n: HolderId, node: string, resource: string, nodeAlive: bool)
    ensures var r := After(Did(h, Create(n, node, resource, nodeAlive)));
            if resource == "" || !nodeAlive then r == After(h)
            else
              && n in r.held && Live(r, r.held[n])
              && r.held[n] in r.keyOf && r.keyOf[r.held[n]] == KeyFor(node, resource)
  {
    if resource != "" && nodeAlive {
      CreateHolds(h, n, node, resource);
      var g := Did(h, Create(n, node, resource, true));
      HistoryValid(g);
      HeldIsLive(After(g), n);
    }
  }

  lemma AcquireHeld(r: RegistryState, n: HolderId, key: Key)
    ensures Acquire(r, n, key).held.Keys == r.held.Keys + {n}
    ensures forall m :: m in r.held && m != n ==> Acquire(r, n, key).held[m] == r.held[m]
  {
  }

  /**
    Over any history of constructions, renames and destructions: at most one live instance per
    key, registered under that key; two holders share an instance exactly when the keys they asked
    for agree; and the reference count of an instance is the number of its holders.
   */
  lemma RegistrySafety(h: History)
    ensures var r := After(h);
            && (forall i :: Live(r, i) ==> i in r.keyOf && r.keyOf[i] in r.table && r.table[r.keyOf[i]] == i)
            && (forall i, j :: Live(r, i) && Live(r, j) && r.keyOf[i] == r.keyOf[j] ==> i == j)
            && (forall i :: i in r.refs ==> r.refs[i] == |Holders(r.held, i)|)
            && (forall n :: n in r.held <==> Asked(h, n).Some?)
    ensures forall n, m :: n in After(h).held && m in After(h).held ==>
              (After(h).held[n] == After(h).held[m] <==>
               KeyFor(Asked(h, n).value.0, Asked(h, n).value.1) == KeyFor(Asked(h, m).value.0, Asked(h, m).value.1))
  {
    HistoryValid(h);
    var r := After(h);
    forall n | n in r.held ensures Live(r, r.held[n]) {
      HeldIsLive(r, n);
    }
  }

  /** No resource name asked for contains a slash. */
  predicate PlainNames(h: History) {
    h.Did? ==> PlainNames(h.past) && (h.op.Create? ==> '/' !in h.op.resource)
  }

  lemma {:induction false} AskedPlain(h: History, n: HolderId)
    requires PlainNames(h) && Asked(h, n).Some?
    ensures '/' !in Asked(h, n).value.1
  {
    if Refused(h.op) || h.op.holder != n {
      AskedPlain(h.past, n);
    }
  }

  /** Then, or within one ROS node, holders share an instance exactly when they named the same ROS node and resource. */
  lemma SharingMeansSameResource(h: History, n: HolderId, m: HolderId)
    requires Asked(h, n).Some? && Asked(h, m).Some?
    requires PlainNames(h) || Asked(h, n).value.0 == Asked(h, m).value.0
    ensures n in After(h).held && m in After(h).held
    ensures After(h).held[n] == After(h).held[m] <==> Asked(h, n) == Asked(h, m)
  {
    RegistrySafety(h);
    var a, b := Asked(h, n).value, Asked(h, m).value;
    if PlainNames(h) {
      AskedPlain(h, n);
      AskedPlain(h, m);
    }
    if KeyFor(a.0, a.1) == KeyFor(b.0, b.1) {
      KeysAreInjective(a.0, a.1, b.0, b.1);
    }
  }
}
