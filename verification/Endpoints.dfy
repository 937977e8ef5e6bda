// The two endpoint lists of AT_App.c: nodes are relinked between the list of
// active endpoints and the list of removed ones, and a boot loop does so for
// every configured endpoint.

module Endpoints {
  import opened Osal

  class Node {
    const endPoint: uint8   // epDesc->endPoint
    var nextDesc: Node?

    constructor (endPoint: uint8, nextDesc: Node?)
      ensures this.endPoint == endPoint && this.nextDesc == nextDesc
    {
      this.endPoint, this.nextDesc := endPoint, nextDesc;
    }
  }

  // ----- the lists as sequences

  datatype Table = Table(active: seq<Node>, removed: seq<Node>)

  function All(t: Table): seq<Node> {
    t.active + t.removed
  }

  // The first node with this endpoint, or the length.
  function Find(s: seq<Node>, ep: nat): (k: nat)
    ensures k <= |s|
    ensures k < |s| ==> s[k].endPoint == ep
    ensures forall j | 0 <= j < k :: s[j].endPoint != ep
  {
    if s == [] || s[0].endPoint == ep then 0 else 1 + Find(s[1..], ep)
  }

  predicate Has(s: seq<Node>, ep: nat) {
    Find(s, ep) < |s|
  }

  function Drop(s: seq<Node>, k: nat): seq<Node>
    requires k < |s|
  {
    s[..k] + s[k + 1..]
  }

  predicate InRange(ep: nat) {
    1 <= ep <= 240
  }

  // Two lists, of which the first match of one goes to the head of the other.
  datatype Pair = Pair(from: seq<Node>, to: seq<Node>)

  function Moved(from: seq<Node>, to: seq<Node>, ep: nat): Pair {
    if Has(from, ep) then
      var k := Find(from, ep);
      Pair(Drop(from, k), [from[k]] + to)
    else Pair(from, to)
  }

  function Remove(t: Table, ep: nat): Table {
    if InRange(ep) then
      var m := Moved(t.active, t.removed, ep);
      Table(m.from, m.to)
    else t
  }

  function Register(t: Table, ep: nat): Table {
    if InRange(ep) then
      var m := Moved(t.removed, t.active, ep);
      Table(m.to, m.from)
    else t
  }

  function Lookup(t: Table, ep: nat): Node? {
    if Has(t.removed, ep) then t.removed[Find(t.removed, ep)]
    else if Has(t.active, ep) then t.active[Find(t.active, ep)]
    else null
  }

  // ----- the boot loop

  // `stored` are the outcomes of the stored-flag reads; a failed one leaves the
  // local variable `enable` as it was.
  function FlagAfter(enable: uint8, read: Option<uint8>): uint8 {
    if read.Some? then read.value else enable
  }

  function Flags(enable: uint8, stored: seq<Option<uint8>>): (f: seq<uint8>)
    ensures |f| == |stored|
    decreases |stored|
  {
    if stored == [] then []
    else [FlagAfter(enable, stored[0])] + Flags(FlagAfter(enable, stored[0]), stored[1..])
  }

  function Boot(t: Table, eps: seq<uint8>, flags: seq<uint8>): Table
    requires |eps| == |flags|
    decreases |eps|
  {
    if eps == [] then t
    else Boot(if flags[0] == 1 then t else Remove(t, eps[0]), eps[1..], flags[1..])
  }

  // One enable or disable call for each configured endpoint, in order.
  function Calls(eps: seq<uint8>, flags: seq<uint8>): seq<(bool, uint8)>
    requires |eps| == |flags|
  {
    seq(|eps|, i requires 0 <= i < |eps| => (flags[i] == 1, eps[i]))
  }

  const AT_CMD_EPS: seq<uint8> := [1, 4, 5, 6, 7]

  datatype Status = Success | InvalidParameter

  // ----- the lists in memory

  predicate Within(t: Table, nodes: set<Node>) {
    (forall x | x in t.active :: x in nodes) && (forall x | x in t.removed :: x in nodes)
  }

  function Successor(s: seq<Node>, i: nat): Node?
    requires i < |s|
  {
    if i + 1 < |s| then s[i + 1] else null
  }

  ghost predicate Linked(head: Node?, s: seq<Node>)
    reads s
  {
    && head == (if |s| == 0 then null else s[0])
    && forall i | 0 <= i < |s| :: s[i].nextDesc == Successor(s, i)
  }

  predicate Distinct(s: seq<Node>) {
    forall i, j | 0 <= i < j < |s| :: s[i] != s[j]
  }

  predicate Disjoint(s: seq<Node>, t: seq<Node>) {
    forall i, j | 0 <= i < |s| && 0 <= j < |t| :: s[i] != t[j]
  }

  // No node twice, in either list or across them.
  predicate Separate(t: Table) {
    Distinct(t.active) && Distinct(t.removed) && Disjoint(t.active, t.removed)
  }

  class EndpointLists {
    var epList: Node?
    var removedEPList: Node?
    // calls of the cluster library's enable hook
    var zclCalls: seq<(bool, uint8)>
    ghost var table: Table
    ghost const nodes: set<Node>   // the nodes that the two lists share out

    ghost predicate Valid()
      reads this, nodes
    {
      && Within(table, nodes)
      && Linked(epList, table.active)
      && Linked(removedEPList, table.removed)
      && Separate(table)
    }

    // The stack has registered its endpoints; none is removed.
    constructor (epList: Node?, ghost registered: seq<Node>)
      requires Linked(epList, registered) && Distinct(registered)
      ensures Valid() && table == Table(registered, []) && zclCalls == []
    {
      this.epList, removedEPList, zclCalls := epList, null, [];
      table := Table(registered, []);
      nodes := set x | x in registered;
    }

    // AT_af_remove_ep
    method RemoveEp(ep: uint8) returns (status: Status)
      requires Valid()
      modifies this`epList, this`removedEPList, this`table, nodes
      ensures Valid()
      ensures table == Remove(old(table), ep)
      ensures status == if InRange(ep) && Has(old(table).active, ep) then Success else InvalidParameter
    {
      if ep < 1 || ep > 240 {
        return InvalidParameter;
      }
      ghost var m := Moved(table.active, table.removed, ep);
      MoveKeeps(table.active, table.removed, ep, nodes);
      var found;
      epList, removedEPList, found := MoveNode(epList, removedEPList, ep, table.active, table.removed, m);
      table := Table(m.from, m.to);
      status := if found then Success else InvalidParameter;
    }

    // AT_af_register_ep
    method RegisterEp(ep: uint8) returns (status: Status)
      requires Valid()
      modifies this`epList, this`removedEPList, this`table, nodes
      ensures Valid()
      ensures table == Register(old(table), ep)
      ensures status == if InRange(ep) && Has(old(table).removed, ep) then Success else InvalidParameter
    {
      if ep < 1 || ep > 240 {
        return InvalidParameter;
      }
      ghost var m := Moved(table.removed, table.active, ep);
      MoveKeeps(table.removed, table.active, ep, nodes);
      var found;
      removedEPList, epList, found := MoveNode(removedEPList, epList, ep, table.removed, table.active, m);
      table := Table(m.to, m.from);
      status := if found then Success else InvalidParameter;
    }

    // AT_af_get_ep
    method GetEp(ep: uint8) returns (node: Node?)
      requires Valid()
      ensures node == Lookup(table, ep)
    {
      node := FindNode(removedEPList, ep, table.removed);
      if node == null {
        node := FindNode(epList, ep, table.active);
      }
    }

    // AT_af_ep_num: an 8-bit count
    method EpNum() returns (cnt: uint8)
      requires Valid()
      ensures cnt == |All(table)| % 0x100
    {
      cnt := CountNodes(removedEPList, 0, table.removed);
      cnt := CountNodes(epList, cnt, table.active);
      SumWraps(|table.removed|, |table.active|);
    }

    // AT_handleZCL_EP
    method HandleZclEp(stored: seq<Option<uint8>>, garbage: uint8)
      requires Valid() && |stored| == |AT_CMD_EPS|
      modifies this, nodes
      ensures Valid()
      ensures table == Boot(old(table), AT_CMD_EPS, Flags(garbage, stored))
      ensures zclCalls == old(zclCalls) + Calls(AT_CMD_EPS, Flags(garbage, stored))
    {
      BootLoop(AT_CMD_EPS, stored, garbage);
    }

    method BootLoop(eps: seq<uint8>, stored: seq<Option<uint8>>, garbage: uint8)
      requires Valid() && |stored| == |eps|
      modifies this, nodes
      ensures Valid()
      ensures table == Boot(old(table), eps, Flags(garbage, stored))
      ensures zclCalls == old(zclCalls) + Calls(eps, Flags(garbage, stored))
    {
      var enable, i := garbage, 0;
      ghost var flags := Flags(garbage, stored);
      assert eps[0..] == eps && flags[0..] == flags && stored[0..] == stored;
      while i < |eps|
        invariant Valid() && i <= |eps|
        invariant flags[i..] == Flags(enable, stored[i..])
        invariant Boot(table, eps[i..], flags[i..]) == Boot(old(table), eps, flags)
        invariant zclCalls + Calls(eps[i..], flags[i..]) == old(zclCalls) + Calls(eps, flags)
      {
        ghost var calls := zclCalls;
        enable := FlagAfter(enable, stored[i]);
        FlagsStep(flags, enable, stored, i);
        BootStep(table, eps, flags, i);
        HandleOne(eps[i], enable);
        CallsStep(calls, eps, flags, i);
        i := i + 1;
      }
    }

    // One turn of the boot loop.
    method HandleOne(ep: uint8, enable: uint8)
      requires Valid()
      modifies this, nodes
      ensures Valid()
      ensures table == if enable == 1 then old(table) else Remove(old(table), ep)
      ensures zclCalls == old(zclCalls) + [(enable == 1, ep)]
    {
      if enable == 1 {
        zclCalls := zclCalls + [(true, ep)];
      } else {
        var _ := RemoveEp(ep);
        zclCalls := zclCalls + [(false, ep)];
      }
    }
  }

  // A move keeps the lists apart, and within the same nodes.
  lemma MoveKeeps(from: seq<Node>, to: seq<Node>, ep: nat, nodes: set<Node>)
    requires Distinct(from) && Distinct(to) && Disjoint(from, to)
    requires (forall x | x in from :: x in nodes) && (forall x | x in to :: x in nodes)
    ensures var m := Moved(from, to, ep);
      && Distinct(m.from) && Distinct(m.to) && Disjoint(m.from, m.to) && Disjoint(m.to, m.from)
      && (forall x | x in m.from :: x in nodes) && (forall x | x in m.to :: x in nodes)
  {
    if Has(from, ep) {
      MoveSeparate(from, to, Find(from, ep));
    }
  }

  lemma FlagsStep(flags: seq<uint8>, enable: uint8, stored: seq<Option<uint8>>, i: nat)
    requires i < |flags| == |stored|
    requires exists before: uint8 :: flags[i..] == Flags(before, stored[i..]) && enable == FlagAfter(before, stored[i])
    ensures flags[i] == enable && flags[i + 1..] == Flags(enable, stored[i + 1..])
  {
    assert stored[i..][1..] == stored[i + 1..] && flags[i..][1..] == flags[i + 1..];
  }

  lemma BootStep(t: Table, eps: seq<uint8>, flags: seq<uint8>, i: nat)
    requires i < |eps| == |flags|
    ensures Boot(t, eps[i..], flags[i..])
         == Boot(if flags[i] == 1 then t else Remove(t, eps[i]), eps[i + 1..], flags[i + 1..])
  {
    assert eps[i..][1..] == eps[i + 1..] && flags[i..][1..] == flags[i + 1..];
  }

  lemma CallsStep(calls: seq<(bool, uint8)>, eps: seq<uint8>, flags: seq<uint8>, i: nat)
    requires i < |eps| == |flags|
    ensures calls + Calls(eps[i..], flags[i..])
         == calls + [(flags[i] == 1, eps[i])] + Calls(eps[i + 1..], flags[i + 1..])
  {
    assert Calls(eps[i..], flags[i..]) == [(flags[i] == 1, eps[i])] + Calls(eps[i + 1..], flags[i + 1..]);
  }

  // The search of AT_af_remove_ep and AT_af_register_ep: unlink the first match
  // of one list and push it onto the other.
  method MoveNode(head: Node?, other: Node?, ep: uint8, ghost from: seq<Node>, ghost to: seq<Node>, ghost m: Pair)
    returns (head': Node?, other': Node?, found: bool)
    requires Linked(head, from) && Linked(other, to)
    requires Distinct(from) && Disjoint(from, to) && m == Moved(from, to, ep)
    modifies from
    ensures found == Has(from, ep)
    ensures Linked(head', m.from) && Linked(other', m.to)
  {
    head', other', found := head, other, false;
    var pre, cur := Search(head, ep, from);
    if cur != null {
      ghost var k := Find(from, ep);
      head' := Unlink(head, pre, cur, from, k, m.from);
      Push(cur, other, from, k, to, m.from, head');
      other' := cur;
      found := true;
    }
  }

  // The first match, and the node before it.
  method Search(head: Node?, ep: uint8, ghost s: seq<Node>) returns (pre: Node?, cur: Node?)
    requires Linked(head, s)
    ensures cur == if Has(s, ep) then s[Find(s, ep)] else null
    ensures Has(s, ep) ==> pre == if 0 < Find(s, ep) then s[Find(s, ep) - 1] else null
  {
    pre, cur := null, head;
    ghost var k := 0;
    while cur != null
      invariant k <= |s| && k <= Find(s, ep)
      invariant cur == if k < |s| then s[k] else null
      invariant pre == if 0 < k then s[k - 1] else null
      decreases |s| - k
    {
      if cur.endPoint == ep {
        return;
      }
      assert cur == s[k] && Find(s, ep) != k;
      pre := cur;
      cur := cur.nextDesc;
      k := k + 1;
    }
  }

  lemma DropShape(s: seq<Node>, k: nat)
    requires k < |s| && Distinct(s)
    ensures forall i | 0 <= i < |s| - 1 :: Drop(s, k)[i] == s[if i < k then i else i + 1]
    ensures forall i | 0 <= i < |s| - 1 :: Drop(s, k)[i] != s[k]
  {
  }

  method Unlink(head: Node?, pre: Node?, cur: Node, ghost s: seq<Node>, ghost k: nat, ghost rest: seq<Node>)
    returns (head': Node?)
    requires Linked(head, s) && Distinct(s) && k < |s| && cur == s[k] && rest == Drop(s, k)
    requires pre == if 0 < k then s[k - 1] else null
    modifies s
    ensures Linked(head', rest)
    ensures cur.nextDesc == old(cur.nextDesc)
  {
    head' := head;
    DropShape(s, k);
    if pre == null {
      head' := cur.nextDesc;
    } else {
      pre.nextDesc := cur.nextDesc;
    }
    forall i | 0 <= i < |rest|
      ensures rest[i].nextDesc == Successor(rest, i)
    {
      var j := if i < k then i else i + 1;
      assert rest[i] == s[j] && s[j] != cur;
      assert j + 1 != k ==> s[j].nextDesc == old(s[j].nextDesc) == Successor(s, j);
    }
  }

  // The node `cur`, unlinked from `rest`, goes in front of `to`.
  method Push(cur: Node, other: Node?, ghost from: seq<Node>, ghost k: nat, ghost to: seq<Node>,
              ghost rest: seq<Node>, ghost head: Node?)
    requires Distinct(from) && k < |from| && cur == from[k] && rest == Drop(from, k) && Linked(head, rest)
    requires Disjoint(from, to) && Linked(other, to)
    modifies cur
    ensures Linked(cur, [cur] + to) && Linked(head, rest)
  {
    DropShape(from, k);
    cur.nextDesc := other;
    ghost var longer := [cur] + to;
    forall i | 0 <= i < |longer|
      ensures longer[i].nextDesc == Successor(longer, i)
    {
      if i != 0 {
        assert longer[i] == to[i - 1] && to[i - 1] != from[k];
        assert to[i - 1].nextDesc == Successor(to, i - 1);
      }
    }
  }

  method FindNode(head: Node?, ep: uint8, ghost s: seq<Node>) returns (node: Node?)
    requires Linked(head, s)
    ensures node == if Has(s, ep) then s[Find(s, ep)] else null
  {
    node := head;
    ghost var k := 0;
    while node != null
      invariant k <= |s| && k <= Find(s, ep)
      invariant node == if k < |s| then s[k] else null
      decreases |s| - k
    {
      if node.endPoint == ep {
        return;
      }
      assert node == s[k] && Find(s, ep) != k;
      node := node.nextDesc;
      k := k + 1;
    }
  }

  lemma SumWraps(a: nat, b: nat)
    ensures (a % 0x100 + b) % 0x100 == (a + b) % 0x100
  {
  }

  lemma CountWraps(n: nat)
    ensures (n % 0x100 + 1) % 0x100 == (n + 1) % 0x100
  {
  }

  method CountNodes(head: Node?, cnt0: uint8, ghost s: seq<Node>) returns (cnt: uint8)
    requires Linked(head, s)
    ensures cnt == (cnt0 + |s|) % 0x100
  {
    var cur := head;
    cnt := cnt0;
    ghost var k := 0;
    while cur != null
      invariant k <= |s| && cnt == (cnt0 + k) % 0x100
      invariant cur == if k < |s| then s[k] else null
      decreases |s| - k
    {
      cur := cur.nextDesc;
      CountWraps(cnt0 + k);
      cnt := (cnt + 1) % 0x100;
      k := k + 1;
    }
  }

  // ----- moving nodes keeps the lists apart

  lemma DropDistinct(s: seq<Node>, k: nat)
    requires k < |s| && Distinct(s)
    ensures Distinct(Drop(s, k))
  {
    DropShape(s, k);
  }

  lemma MoveSeparate(from: seq<Node>, to: seq<Node>, k: nat)
    requires k < |from| && Distinct(from) && Distinct(to) && Disjoint(from, to)
    ensures Distinct(Drop(from, k)) && Distinct([from[k]] + to) && Disjoint(Drop(from, k), [from[k]] + to)
  {
    DropShape(from, k);
    DropDistinct(from, k);
  }

  lemma RemoveSeparate(t: Table, ep: nat)
    requires Separate(t)
    ensures Separate(Remove(t, ep))
  {
    if InRange(ep) && Has(t.active, ep) {
      MoveSeparate(t.active, t.removed, Find(t.active, ep));
    }
  }

  lemma RegisterSeparate(t: Table, ep: nat)
    requires Separate(t)
    ensures Separate(Register(t, ep))
  {
    if InRange(ep) && Has(t.removed, ep) {
      MoveSeparate(t.removed, t.active, Find(t.removed, ep));
    }
  }

  // ----- conservation

  lemma DropCounts(s: seq<Node>, k: nat)
    requires k < |s|
    ensures multiset(Drop(s, k)) + multiset{s[k]} == multiset(s)
  {
    assert s == s[..k] + [s[k]] + s[k + 1..];
  }

  lemma RemoveConserves(t: Table, ep: nat)
    ensures multiset(All(Remove(t, ep))) == multiset(All(t))
  {
    if InRange(ep) && Has(t.active, ep) {
      DropCounts(t.active, Find(t.active, ep));
    }
  }

  lemma RegisterConserves(t: Table, ep: nat)
    ensures multiset(All(Register(t, ep))) == multiset(All(t))
  {
    if InRange(ep) && Has(t.removed, ep) {
      DropCounts(t.removed, Find(t.removed, ep));
    }
  }
}
