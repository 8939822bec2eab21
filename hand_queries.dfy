/** The lookups of hands.c: window to hand, and the count of active hands. */
module HandQueries {

  import opened Hands

  /** Index of the first hand of hs whose window is w, or |hs|. */
  function FirstWithWindow(hs: seq<Hand>, w: int): (k: int)
    reads hs
    ensures 0 <= k <= |hs|
    ensures k < |hs| ==> hs[k].w == w
    ensures forall j :: 0 <= j < k ==> hs[j].w != w
    decreases |hs|
  {
    if hs == [] then 0
    else if hs[0].w == w then 0
    else 1 + FirstWithWindow(hs[1..], w)
  }

  /** window_to_hand: the toplevel hand with window w, else (if icons are
      allowed) the icon hand with window w, else null. */
  method WindowToHand(port: Port, w: int, allowIcons: bool) returns (r: Hand?)
    ensures var k := FirstWithWindow(port.hands, w);
      var j := FirstWithWindow(port.iconHands, w);
      if k < |port.hands| then r == port.hands[k]
      else if allowIcons && j < |port.iconHands| then r == port.iconHands[j]
      else r == null
  {
    var k := 0;
    while k < |port.hands|
      invariant 0 <= k <= |port.hands|
      invariant forall i :: 0 <= i < k ==> port.hands[i].w != w
    {
      if port.hands[k].w == w {
        return port.hands[k];
      }
      k := k + 1;
    }
    if allowIcons {
      var j := 0;
      while j < |port.iconHands|
        invariant 0 <= j <= |port.iconHands|
        invariant forall i :: 0 <= i < j ==> port.iconHands[i].w != w
      {
        if port.iconHands[j].w == w {
          return port.iconHands[j];
        }
        j := j + 1;
      }
    }
    return null;
  }

  /** The icon hands of the hands in hs. */
  function IconsOf(hs: seq<Hand>): set<Hand>
    reads hs
  {
    set h | h in hs && h.icon != null :: h.icon
  }

  /** What active_hands may inspect: a hand that is not mapped has an icon. */
  predicate Inspectable(hs: seq<Hand>)
    reads hs
  {
    forall h :: h in hs ==> h.mapped || h.icon != null
  }

  /** Whether a hand counts as active: mapped, or iconified (icon mapped). */
  predicate Active(h: Hand)
    requires h.mapped || h.icon != null
    reads h, h.icon
  {
    h.mapped || h.icon.mapped
  }

  /** The number of active hands among hs[k..]. */
  function ActiveFrom(hs: seq<Hand>, k: int): (n: int)
    requires 0 <= k <= |hs| && Inspectable(hs)
    reads hs, IconsOf(hs)
    ensures 0 <= n <= |hs| - k
    ensures n == 0 <==> forall i :: k <= i < |hs| ==> !Active(hs[i])
    ensures n == |hs| - k <==> forall i :: k <= i < |hs| ==> Active(hs[i])
    decreases |hs| - k
  {
    if k == |hs| then 0
    else (if Active(hs[k]) then 1 else 0) + ActiveFrom(hs, k + 1)
  }

  /** The number of active hands in hs. */
  function ActiveIn(hs: seq<Hand>): (n: int)
    requires Inspectable(hs)
    reads hs, IconsOf(hs)
    ensures 0 <= n <= |hs|
    ensures n == 0 <==> forall i :: 0 <= i < |hs| ==> !Active(hs[i])
    ensures n == |hs| <==> forall i :: 0 <= i < |hs| ==> Active(hs[i])
  {
    ActiveFrom(hs, 0)
  }

  /** Counting the tail of a + b past a is counting b. */
  lemma {:induction false} ActiveFromShift(a: seq<Hand>, b: seq<Hand>, j: int)
    requires 0 <= j <= |b| && Inspectable(a + b) && Inspectable(b)
    ensures ActiveFrom(a + b, |a| + j) == ActiveFrom(b, j)
    decreases |b| - j
  {
    if j < |b| {
      ActiveFromShift(a, b, j + 1);
      assert (a + b)[|a| + j] == b[j];
      assert ActiveFrom(a + b, |a| + j) == (if Active(b[j]) then 1 else 0) + ActiveFrom(a + b, |a| + j + 1);
    }
  }

  /** Counting distributes over concatenation. */
  lemma {:induction false} ActiveFromConcat(a: seq<Hand>, b: seq<Hand>, k: int)
    requires 0 <= k <= |a| && Inspectable(a + b) && Inspectable(a) && Inspectable(b)
    ensures ActiveFrom(a + b, k) == ActiveFrom(a, k) + ActiveIn(b)
    decreases |a| - k
  {
    if k < |a| {
      ActiveFromConcat(a, b, k + 1);
      assert (a + b)[k] == a[k];
      assert ActiveFrom(a + b, k) == (if Active(a[k]) then 1 else 0) + ActiveFrom(a + b, k + 1);
      assert ActiveFrom(a, k) == (if Active(a[k]) then 1 else 0) + ActiveFrom(a, k + 1);
    } else {
      ActiveFromShift(a, b, 0);
    }
  }

  /** The count of a + b is the sum of the counts. */
  lemma ActiveInConcat(a: seq<Hand>, b: seq<Hand>)
    requires Inspectable(a) && Inspectable(b)
    ensures Inspectable(a + b)
    ensures ActiveIn(a + b) == ActiveIn(a) + ActiveIn(b)
  {
    assert forall h :: h in a + b ==> h in a || h in b;
    ActiveFromConcat(a, b, 0);
  }

  /** The hands of all ports, in port order and list order. */
  function PortHands(ps: seq<Port>): seq<Hand>
    reads ps
    decreases |ps|
  {
    if ps == [] then [] else ps[0].hands + PortHands(ps[1..])
  }

  /** The hands of a suffix of the ports are hands of all the ports. */
  lemma {:induction false} PortHandsSuffix(ports: seq<Port>, i: int)
    requires 0 <= i <= |ports|
    ensures forall h :: h in PortHands(ports[i..]) ==> h in PortHands(ports)
    decreases i
  {
    if i > 0 {
      PortHandsSuffix(ports, i - 1);
      assert ports[i - 1..][1..] == ports[i..];
      assert PortHands(ports[i - 1..]) == ports[i - 1].hands + PortHands(ports[i..]);
    } else {
      assert ports[i..] == ports;
    }
  }

  /** Peeling one port off the front of the remaining ports. */
  lemma PortHandsStep(ports: seq<Port>, i: int)
    requires 0 <= i < |ports| && Inspectable(PortHands(ports))
    ensures Inspectable(PortHands(ports[i..])) && Inspectable(ports[i].hands)
    ensures Inspectable(PortHands(ports[i + 1..]))
    ensures ActiveIn(PortHands(ports[i..])) == ActiveIn(ports[i].hands) + ActiveIn(PortHands(ports[i + 1..]))
  {
    PortHandsSuffix(ports, i);
    assert ports[i..][1..] == ports[i + 1..];
    var hs, rest := ports[i].hands, PortHands(ports[i + 1..]);
    assert PortHands(ports[i..]) == hs + rest;
    assert forall h :: h in hs ==> h in hs + rest;
    assert forall h :: h in rest ==> h in hs + rest;
    ActiveInConcat(hs, rest);
  }

  /** active_hands: the number of mapped or iconified hands on all ports.
      Nothing changes while it counts, so the loops are specified against
      the state on entry. */
  method ActiveHands(ports: seq<Port>) returns (n: int)
    requires Inspectable(PortHands(ports))
    ensures n == ActiveIn(PortHands(ports))
  {
    forall i | 0 <= i < |ports|
      ensures Inspectable(PortHands(ports[i..])) && Inspectable(ports[i].hands)
      ensures ActiveIn(PortHands(ports[i..])) == ActiveIn(ports[i].hands) + ActiveIn(PortHands(ports[i + 1..]))
    {
      PortHandsStep(ports, i);
    }
    assert ports[0..] == ports;
    n := 0;
    var i := 0;
    while i < |ports|
      invariant 0 <= i <= |ports|
      invariant n + old(ActiveIn(PortHands(ports[i..]))) == old(ActiveIn(PortHands(ports)))
    {
      var hs := ports[i].hands;
      var k := 0;
      ghost var base := n;
      while k < |hs|
        invariant 0 <= k <= |hs|
        invariant n + old(ActiveFrom(hs, k)) == base + old(ActiveIn(hs))
      {
        var h := hs[k];
        if h.mapped || h.icon.mapped {
          n := n + 1;
        }
        k := k + 1;
      }
      i := i + 1;
    }
    assert ports[i..] == [];
  }
}
