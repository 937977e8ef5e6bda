// What any sequence of removals and registrations keeps, what one undoes, and
// where the boot loop leaves every endpoint.

module EndpointLaws {
  import opened Osal
  import opened Sequences
  import opened Endpoints

  datatype Op = RemoveOp(ep: uint8) | RegisterOp(ep: uint8)

  function Apply(t: Table, op: Op): Table {
    match op
    case RemoveOp(ep) => Remove(t, ep)
    case RegisterOp(ep) => Register(t, ep)
  }

  function Run(t: Table, ops: seq<Op>): Table
    decreases |ops|
  {
    if ops == [] then t else Run(Apply(t, ops[0]), ops[1..])
  }

  // ----- what one call does

  // `k` is the first place of a list that holds the endpoint.
  predicate FirstAt(s: seq<Node>, ep: nat, k: nat) {
    k < |s| && s[k].endPoint == ep && forall j | 0 <= j < k :: s[j].endPoint != ep
  }

  predicate Absent(s: seq<Node>, ep: nat) {
    forall j | 0 <= j < |s| :: s[j].endPoint != ep
  }

  // The first node of the active list with the number goes to the head of the
  // removed one; for a number outside 1 to 240, or in no node, nothing happens.
  lemma RemoveExactly(t: Table, ep: nat, k: nat)
    ensures FirstAt(t.active, ep, k) && 1 <= ep <= 240 ==>
      Remove(t, ep) == Table(t.active[..k] + t.active[k + 1..], [t.active[k]] + t.removed)
    ensures Absent(t.active, ep) || ep < 1 || 240 < ep ==> Remove(t, ep) == t
  {
  }

  lemma RegisterExactly(t: Table, ep: nat, k: nat)
    ensures FirstAt(t.removed, ep, k) && 1 <= ep <= 240 ==>
      Register(t, ep) == Table([t.removed[k]] + t.active, t.removed[..k] + t.removed[k + 1..])
    ensures Absent(t.removed, ep) || ep < 1 || 240 < ep ==> Register(t, ep) == t
  {
  }

  // The removed list is searched first.
  lemma LookupExactly(t: Table, ep: nat, k: nat)
    ensures FirstAt(t.removed, ep, k) ==> Lookup(t, ep) == t.removed[k]
    ensures Absent(t.removed, ep) && FirstAt(t.active, ep, k) ==> Lookup(t, ep) == t.active[k]
    ensures Absent(t.removed, ep) && Absent(t.active, ep) ==> Lookup(t, ep) == null
  {
  }

  // ----- nothing is lost, nothing is doubled

  lemma ApplyConserves(t: Table, op: Op)
    ensures multiset(All(Apply(t, op))) == multiset(All(t))
  {
    RemoveConserves(t, op.ep);
    RegisterConserves(t, op.ep);
  }

  lemma {:induction false} RunConserves(t: Table, ops: seq<Op>)
    ensures multiset(All(Run(t, ops))) == multiset(All(t))
    ensures |All(Run(t, ops))| == |All(t)|
    decreases |ops|
  {
    if ops != [] {
      ApplyConserves(t, ops[0]);
      RunConserves(Apply(t, ops[0]), ops[1..]);
    }
    assert |multiset(All(Run(t, ops)))| == |multiset(All(t))|;
  }

  lemma {:induction false} RunSeparate(t: Table, ops: seq<Op>)
    requires Separate(t)
    ensures Separate(Run(t, ops))
    decreases |ops|
  {
    if ops != [] {
      RemoveSeparate(t, ops[0].ep);
      RegisterSeparate(t, ops[0].ep);
      RunSeparate(Apply(t, ops[0]), ops[1..]);
    }
  }

  // ----- nodes that no call names keep their list and their order

  function Others(s: seq<Node>, named: set<uint8>): seq<Node> {
    if s == [] then []
    else (if s[0].endPoint in named then [] else [s[0]]) + Others(s[1..], named)
  }

  lemma {:induction false} OthersJoin(a: seq<Node>, b: seq<Node>, named: set<uint8>)
    ensures Others(a + b, named) == Others(a, named) + Others(b, named)
  {
    if a == [] {
      Units(b);
      Units(Others(b, named));
    } else {
      OthersJoin(a[1..], b, named);
      TailOfSum(a, b);
      Assoc(if a[0].endPoint in named then [] else [a[0]], Others(a[1..], named), Others(b, named));
    }
  }

  lemma OthersDrop(s: seq<Node>, k: nat, named: set<uint8>)
    requires k < |s| && s[k].endPoint in named
    ensures Others(Drop(s, k), named) == Others(s, named)
  {
    OthersJoin(s[..k], s[k + 1..], named);
    OthersJoin([s[k]], s[k + 1..], named);
    OthersJoin(s[..k], [s[k]] + s[k + 1..], named);
    assert s == s[..k] + ([s[k]] + s[k + 1..]);
    assert Others([s[k]], named) == [];
  }

  lemma ApplyOthers(t: Table, op: Op, named: set<uint8>)
    requires op.ep in named
    ensures Others(Apply(t, op).active, named) == Others(t.active, named)
    ensures Others(Apply(t, op).removed, named) == Others(t.removed, named)
  {
    var k := Find(t.active, op.ep);
    var j := Find(t.removed, op.ep);
    if op.RemoveOp? && InRange(op.ep) && k < |t.active| {
      OthersDrop(t.active, k, named);
      assert ([t.active[k]] + t.removed)[1..] == t.removed;
    } else if op.RegisterOp? && InRange(op.ep) && j < |t.removed| {
      OthersDrop(t.removed, j, named);
      assert ([t.removed[j]] + t.active)[1..] == t.active;
    }
  }

  lemma {:induction false} RunOthers(t: Table, ops: seq<Op>, named: set<uint8>)
    requires forall op | op in ops :: op.ep in named
    ensures Others(Run(t, ops).active, named) == Others(t.active, named)
    ensures Others(Run(t, ops).removed, named) == Others(t.removed, named)
    decreases |ops|
  {
    if ops != [] {
      assert ops[0] in ops;
      ApplyOthers(t, ops[0], named);
      RunOthers(Apply(t, ops[0]), ops[1..], named);
    }
  }

  // ----- lookups do not depend on which list holds a node

  // No endpoint number twice, over both lists.
  predicate UniqueIds(s: seq<Node>) {
    forall i, j | 0 <= i < |s| && 0 <= j < |s| && s[i].endPoint == s[j].endPoint :: i == j
  }

  lemma LookupFinds(t: Table, ep: nat)
    ensures Lookup(t, ep) == null <==> forall x | x in All(t) :: x.endPoint != ep
    ensures Lookup(t, ep) != null ==> Lookup(t, ep) in All(t) && Lookup(t, ep).endPoint == ep
  {
    if Has(t.removed, ep) {
      assert Lookup(t, ep) in t.removed;
    } else if Has(t.active, ep) {
      assert Lookup(t, ep) in t.active;
    } else {
      forall x | x in All(t)
        ensures x.endPoint != ep
      {
        if x in t.active {
          var i :| 0 <= i < |t.active| && t.active[i] == x;
        } else {
          var i :| 0 <= i < |t.removed| && t.removed[i] == x;
        }
      }
    }
  }

  // With unique numbers, AT_af_get_ep gives the same node after any run.
  lemma LookupStays(t: Table, ops: seq<Op>, ep: nat)
    requires UniqueIds(All(t))
    ensures Lookup(Run(t, ops), ep) == Lookup(t, ep)
  {
    var u := Run(t, ops);
    RunConserves(t, ops);
    LookupFinds(t, ep);
    LookupFinds(u, ep);
    var a, b := Lookup(t, ep), Lookup(u, ep);
    if a != null {
      assert a in multiset(All(u));
    }
    if b != null {
      assert b in multiset(All(t));
      assert a != null;
      var i :| 0 <= i < |All(t)| && All(t)[i] == a;
      var j :| 0 <= j < |All(t)| && All(t)[j] == b;
      assert i == j;
    }
  }

  // ----- what one call undoes

  // Registering what was just removed brings the node back to the head of the
  // active list: the very same table exactly when it was there before.
  lemma RegisterUndoes(t: Table, ep: uint8)
    requires InRange(ep) && Has(t.active, ep)
    ensures var k := Find(t.active, ep);
      Register(Remove(t, ep), ep) == Table([t.active[k]] + Drop(t.active, k), t.removed)
    ensures Separate(t) ==> (Register(Remove(t, ep), ep) == t <==> Find(t.active, ep) == 0)
  {
    var k := Find(t.active, ep);
    var u := Remove(t, ep);
    assert Find(u.removed, ep) == 0;
    assert Drop(u.removed, 0) == t.removed;
    var back := [t.active[k]] + Drop(t.active, k);
    if k == 0 {
      assert back == t.active;
    } else {
      assert back[0] == t.active[k];
    }
  }

  // ----- after the boot loop

  lemma {:induction false} BootSeparate(t: Table, eps: seq<uint8>, flags: seq<uint8>)
    requires |eps| == |flags| && Separate(t)
    ensures Separate(Boot(t, eps, flags))
    ensures multiset(All(Boot(t, eps, flags))) == multiset(All(t))
    decreases |eps|
  {
    if eps != [] {
      RemoveSeparate(t, eps[0]);
      RemoveConserves(t, eps[0]);
      BootSeparate(if flags[0] == 1 then t else Remove(t, eps[0]), eps[1..], flags[1..]);
    }
  }

  // Some configured slot with this endpoint number has a flag other than 1.
  predicate Disabled(eps: seq<uint8>, flags: seq<uint8>, ep: nat)
    requires |eps| == |flags|
  {
    exists i | 0 <= i < |eps| :: eps[i] == ep && flags[i] != 1
  }

  lemma RemoveMoves(t: Table, ep: uint8, x: Node)
    requires InRange(ep) && UniqueIds(t.active) && x in t.active
    ensures x in Remove(t, ep).removed <==> x in t.removed || x.endPoint == ep
    ensures x in Remove(t, ep).active <==> x.endPoint != ep
    ensures UniqueIds(Remove(t, ep).active)
  {
    if Has(t.active, ep) {
      DropUnique(t.active, Find(t.active, ep), x);
    }
  }

  lemma DropUnique(s: seq<Node>, k: nat, x: Node)
    requires UniqueIds(s) && k < |s| && x in s
    ensures UniqueIds(Drop(s, k))
    ensures x in Drop(s, k) <==> x.endPoint != s[k].endPoint
  {
    var d := Drop(s, k);
    assert forall j | 0 <= j < |d| :: d[j] == s[if j < k then j else j + 1];
    var i :| 0 <= i < |s| && s[i] == x;
    if i != k {
      assert d[if i < k then i else i - 1] == x;
    } else {
      assert forall j | 0 <= j < |d| :: d[j].endPoint != x.endPoint;
    }
  }

  lemma RemoveKeepsRemoved(t: Table, ep: uint8, x: Node)
    requires x in t.removed && x !in t.active
    ensures x in Remove(t, ep).removed && x !in Remove(t, ep).active
  {
  }

  lemma {:induction false} BootKeepsRemoved(t: Table, eps: seq<uint8>, flags: seq<uint8>, x: Node)
    requires |eps| == |flags| && x in t.removed && x !in t.active
    ensures x in Boot(t, eps, flags).removed && x !in Boot(t, eps, flags).active
    decreases |eps|
  {
    if eps != [] {
      RemoveKeepsRemoved(t, eps[0], x);
      BootKeepsRemoved(if flags[0] == 1 then t else Remove(t, eps[0]), eps[1..], flags[1..], x);
    }
  }

  lemma DisabledStep(eps: seq<uint8>, flags: seq<uint8>, ep: nat)
    requires |eps| == |flags| && eps != []
    ensures Disabled(eps, flags, ep) <==> (eps[0] == ep && flags[0] != 1) || Disabled(eps[1..], flags[1..], ep)
  {
    if Disabled(eps, flags, ep) {
      var i :| 0 <= i < |eps| && eps[i] == ep && flags[i] != 1;
      if i != 0 {
        assert eps[1..][i - 1] == ep && flags[1..][i - 1] != 1;
      }
    }
    if Disabled(eps[1..], flags[1..], ep) {
      var i :| 0 <= i < |eps[1..]| && eps[1..][i] == ep && flags[1..][i] != 1;
      assert eps[i + 1] == ep && flags[i + 1] != 1;
    }
  }

  // A registered endpoint ends up removed exactly when its flag is not 1.
  lemma {:induction false} BootOutcome(t: Table, eps: seq<uint8>, flags: seq<uint8>, x: Node)
    requires |eps| == |flags| && forall i | 0 <= i < |eps| :: InRange(eps[i])
    requires UniqueIds(t.active) && x in t.active && x !in t.removed
    ensures x in Boot(t, eps, flags).removed <==> Disabled(eps, flags, x.endPoint)
    ensures x in Boot(t, eps, flags).active <==> !Disabled(eps, flags, x.endPoint)
    decreases |eps|
  {
    if eps != [] {
      DisabledStep(eps, flags, x.endPoint);
      RemoveMoves(t, eps[0], x);
      var u := if flags[0] == 1 then t else Remove(t, eps[0]);
      if x in u.active {
        BootOutcome(u, eps[1..], flags[1..], x);
      } else {
        BootKeepsRemoved(u, eps[1..], flags[1..], x);
      }
    }
  }

  lemma OwnFlag(eps: seq<uint8>, flags: seq<uint8>, i: nat)
    requires |eps| == |flags| && i < |eps|
    requires forall j, k | 0 <= j < k < |eps| :: eps[j] != eps[k]
    ensures Disabled(eps, flags, eps[i]) <==> flags[i] != 1
  {
    if flags[i] != 1 {
      assert eps[i] == eps[i];
    }
  }

  // The firmware's own table: for a configured endpoint, its own flag decides.
  lemma BootOfFirmware(t: Table, flags: seq<uint8>, x: Node, i: nat)
    requires |flags| == |AT_CMD_EPS| && i < |AT_CMD_EPS|
    requires UniqueIds(t.active) && t.removed == [] && x in t.active && x.endPoint == AT_CMD_EPS[i]
    ensures x in Boot(t, AT_CMD_EPS, flags).removed <==> flags[i] != 1
    ensures x in Boot(t, AT_CMD_EPS, flags).active <==> flags[i] == 1
  {
    var eps := AT_CMD_EPS;
    assert forall j | 0 <= j < |eps| :: InRange(eps[j]);
    assert forall j, k | 0 <= j < k < |eps| :: eps[j] != eps[k];
    OwnFlag(eps, flags, i);
    BootOutcome(t, eps, flags, x);
  }

  // Each configured endpoint gets one call, in order, that enables it exactly when
  // its flag is 1; and there are five of them.
  lemma CallsExactly(eps: seq<uint8>, flags: seq<uint8>, i: nat)
    requires |eps| == |flags| && i < |eps|
    ensures |Calls(eps, flags)| == |eps|
    ensures Calls(eps, flags)[i].1 == eps[i] && (Calls(eps, flags)[i].0 <==> flags[i] == 1)
    ensures |AT_CMD_EPS| == 5 && forall ep | ep in AT_CMD_EPS :: ep == 1 || 4 <= ep <= 7
  {
  }

  // A flag is the last one that was read, or what the variable held before.
  lemma {:induction false} FlagIsLastRead(garbage: uint8, stored: seq<Option<uint8>>, i: nat)
    requires i < |stored|
    ensures var flag := Flags(garbage, stored)[i];
      || (exists j | 0 <= j <= i :: stored[j] == Some(flag) && forall m | j < m <= i :: stored[m].None?)
      || (flag == garbage && forall m | 0 <= m <= i :: stored[m].None?)
    decreases i
  {
    var enable, rest := FlagAfter(garbage, stored[0]), stored[1..];
    if i == 0 {
      if stored[0].Some? {
        assert stored[0] == Some(Flags(garbage, stored)[0]);
      }
    } else {
      FlagIsLastRead(enable, rest, i - 1);
      var flag := Flags(garbage, stored)[i];
      assert flag == Flags(enable, rest)[i - 1];
      if j :| 0 <= j <= i - 1 && rest[j] == Some(flag) && forall m | j < m <= i - 1 :: rest[m].None? {
        assert stored[j + 1] == Some(flag);
        assert forall m | j + 1 < m <= i :: stored[m] == rest[m - 1];
      } else {
        assert forall m | 1 <= m <= i :: stored[m] == rest[m - 1];
        if stored[0].Some? {
          assert stored[0] == Some(flag);
        }
      }
    }
  }
}
