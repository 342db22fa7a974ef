/** client_nat_transform of clinat.c: the first matching rule rewrites each address of a
    packet, and the reply is rewritten back. */
module ClientNat {

  datatype Option<T> = None | Some(value: T)

  /** The kind of a rule, and the direction of a packet. */
  type Bit = b: int | 0 <= b <= 1
  const SNAT: Bit := 0
  const DNAT: Bit := 1
  const OUTGOING: Bit := 0
  const INCOMING: Bit := 1

  function Network(addr: bv32, mask: bv32): bv32 {
    addr & mask
  }

  function Replace(addr: bv32, mask: bv32, to: bv32): bv32 {
    (addr & !mask) | to
  }

  predicate Inside(range: bv32, mask: bv32) {
    range & !mask == 0
  }

  datatype Rule = Rule(kind: Bit, network: bv32, netmask: bv32, foreign: bv32) {
    /** The range that is looked for, and the one that replaces it. */
    function From(direction: Bit): bv32 {
      if direction != 0 then foreign else network
    }

    function To(direction: Bit): bv32 {
      if direction != 0 then network else foreign
    }

    predicate Matches(direction: Bit, addr: bv32) {
      Network(addr, netmask) == From(direction)
    }

    /** Replace the network part, keep the host part. */
    function Rewrite(direction: Bit, addr: bv32): bv32 {
      Replace(addr, netmask, To(direction))
    }

    /** Neither range has bits outside the mask. */
    predicate NoHostBits() {
      Inside(network, netmask) && Inside(foreign, netmask)
    }
  }

  class Packet {
    var saddr: bv32
    var daddr: bv32
  }

  /** The first rule of the kind that matches the address. */
  ghost function FirstMatch(rules: seq<Rule>, kind: Bit, direction: Bit, addr: bv32): (r: Option<nat>)
    ensures r.Some? ==> r.value < |rules| && rules[r.value].kind == kind && rules[r.value].Matches(direction, addr)
    ensures forall j :: 0 <= j < (if r.Some? then r.value else |rules|) && rules[j].kind == kind ==> !rules[j].Matches(direction, addr)
    decreases |rules|
  {
    if rules == [] then None
    else
      var l := |rules| - 1;
      var before := FirstMatch(rules[..l], kind, direction, addr);
      if before.Some? then before
      else if rules[l].kind == kind && rules[l].Matches(direction, addr) then Some(l)
      else None
  }

  ghost function Translate(rules: seq<Rule>, kind: Bit, direction: Bit, addr: bv32): bv32 {
    var m := FirstMatch(rules, kind, direction, addr);
    if m.Some? then rules[m.value].Rewrite(direction, addr) else addr
  }

  /** In terms of the bits: going out, the network is looked for and the foreign network put in
      its place, coming in the other way round; the host bits stay. */
  lemma RuleMeaning(e: Rule, direction: Bit, addr: bv32)
    ensures direction == 0 ==> (e.Matches(direction, addr) <==> Masks(addr, e.netmask, e.network))
    ensures direction == 0 ==> Mixes(addr, e.netmask, e.foreign, e.Rewrite(direction, addr))
    ensures direction == 1 ==> (e.Matches(direction, addr) <==> Masks(addr, e.netmask, e.foreign))
    ensures direction == 1 ==> Mixes(addr, e.netmask, e.network, e.Rewrite(direction, addr))
  {
    hide Network, Replace, Masks, Mixes;
    NetworkMeaning(addr, e.netmask, e.network);
    NetworkMeaning(addr, e.netmask, e.foreign);
    ReplaceMeaning(addr, e.netmask, e.foreign);
    ReplaceMeaning(addr, e.netmask, e.network);
  }

  predicate Masks(addr: bv32, mask: bv32, range: bv32) {
    addr & mask == range
  }

  predicate Mixes(addr: bv32, mask: bv32, to: bv32, out: bv32) {
    out == (addr & !mask) | to
  }

  lemma NetworkMeaning(addr: bv32, mask: bv32, range: bv32)
    ensures Network(addr, mask) == range <==> Masks(addr, mask, range)
  {
  }

  lemma ReplaceMeaning(addr: bv32, mask: bv32, to: bv32)
    ensures Mixes(addr, mask, to, Replace(addr, mask, to))
  {
  }

  /** The first rule of the kind whose range contains the address rewrites it; without such a
      rule it stays. */
  lemma TranslateMeaning(rules: seq<Rule>, kind: Bit, direction: Bit, addr: bv32)
    ensures var m := FirstMatch(rules, kind, direction, addr);
      && (forall j :: 0 <= j < (if m.Some? then m.value else |rules|) && rules[j].kind == kind ==> !rules[j].Matches(direction, addr))
      && if m.None? then Translate(rules, kind, direction, addr) == addr
         else && m.value < |rules| && rules[m.value].kind == kind && rules[m.value].Matches(direction, addr)
              && Translate(rules, kind, direction, addr) == rules[m.value].Rewrite(direction, addr)
  {
    hide Network, Replace;
  }

  /** One side of the packet after the first i rules: rewritten at most once, by the first
      match, and marked in the log exactly then. */
  ghost predicate SideDone(rules: seq<Rule>, i: nat, kind: Bit, direction: Bit, was: bv32, now: bv32, marked: bool)
    requires i <= |rules|
  {
    && now == Translate(rules[..i], kind, direction, was)
    && (marked <==> FirstMatch(rules[..i], kind, direction, was).Some?)
  }

  lemma SideStep(rules: seq<Rule>, i: nat, kind: Bit, direction: Bit, was: bv32, now: bv32, marked: bool)
    requires i < |rules| && SideDone(rules, i, kind, direction, was, now, marked)
    ensures if rules[i].kind == kind && rules[i].Matches(direction, now) && !marked
            then SideDone(rules, i + 1, kind, direction, was, rules[i].Rewrite(direction, now), true)
            else SideDone(rules, i + 1, kind, direction, was, now, marked)
  {
    hide Network, Replace;
    assert rules[..i + 1][..i] == rules[..i];
  }

  lemma SideStart(rules: seq<Rule>, kind: Bit, direction: Bit, addr: bv32)
    ensures SideDone(rules, 0, kind, direction, addr, addr, false)
  {
  }

  lemma SideEnd(rules: seq<Rule>, kind: Bit, direction: Bit, was: bv32, now: bv32, marked: bool)
    requires SideDone(rules, |rules|, kind, direction, was, now, marked)
    ensures now == Translate(rules, kind, direction, was)
  {
    assert rules[..|rules|] == rules;
  }

  /** Rewrite a packet in place. Rules whose kind is the direction change the source
      address, the others the destination. */
  method Transform(rules: seq<Rule>, p: Packet, direction: Bit)
    modifies p
    ensures p.saddr == Translate(rules, direction, direction, old(p.saddr))
    ensures p.daddr == Translate(rules, 1 - direction, direction, old(p.daddr))
  {
    hide Translate, FirstMatch, SideDone, Network, Replace;
    var alog: bv2 := 0;
    SideStart(rules, direction, direction, p.saddr);
    SideStart(rules, 1 - direction, direction, p.daddr);
    for i := 0 to |rules|
      invariant SideDone(rules, i, direction, direction, old(p.saddr), p.saddr, alog & 1 != 0)
      invariant SideDone(rules, i, 1 - direction, direction, old(p.daddr), p.daddr, alog & 2 != 0)
    {
      var e := rules[i];
      SideStep(rules, i, direction, direction, old(p.saddr), p.saddr, alog & 1 != 0);
      SideStep(rules, i, 1 - direction, direction, old(p.daddr), p.daddr, alog & 2 != 0);
      var dest := e.kind != direction;
      var addr, amask: bv2 := if dest then p.daddr else p.saddr, if dest then 2 else 1;
      if Network(addr, e.netmask) == e.From(direction) && amask & alog == 0 {
        addr := Replace(addr, e.netmask, e.To(direction));
        if dest { p.daddr := addr; } else { p.saddr := addr; }
        alog := alog | amask;
      }
    }
    SideEnd(rules, direction, direction, old(p.saddr), p.saddr, alog & 1 != 0);
    SideEnd(rules, 1 - direction, direction, old(p.daddr), p.daddr, alog & 2 != 0);
  }

  // ---- the reply

  lemma Masked(addr: bv32, mask: bv32, to: bv32)
    requires to & !mask == 0
    ensures ((addr & !mask) | to) & mask == to
    ensures ((addr & !mask) | to) & !mask == addr & !mask
  {
  }

  lemma Unmasked(addr: bv32, mask: bv32)
    ensures (addr & !mask) | (addr & mask) == addr
  {
  }

  /** Replacing moves an address into the range and keeps the host part. */
  lemma Replaced(addr: bv32, mask: bv32, to: bv32)
    requires Inside(to, mask)
    ensures Network(Replace(addr, mask, to), mask) == to
    ensures Replace(Replace(addr, mask, to), mask, Network(addr, mask)) == addr
  {
    Masked(addr, mask, to);
    Unmasked(addr, mask);
  }

  /** Rewriting moves an address into the other range and keeps the host part. */
  lemma Moved(e: Rule, direction: Bit, addr: bv32)
    requires e.NoHostBits() && e.Matches(direction, addr)
    ensures e.Matches(1 - direction, e.Rewrite(direction, addr))
    ensures e.Rewrite(1 - direction, e.Rewrite(direction, addr)) == addr
  {
    hide Network, Replace, Inside;
    Replaced(addr, e.netmask, e.To(direction));
  }

  /** A rewritten address determines what it was rewritten from. */
  lemma FromBack(e: Rule, direction: Bit, addr: bv32)
    requires e.NoHostBits()
    ensures e.Matches(1 - direction, e.Rewrite(direction, addr))
  {
    hide Network, Replace, Inside;
    Replaced(addr, e.netmask, e.To(direction));
  }

  /** The foreign range of f contains the address that e makes of addr: it agrees with the
      foreign range of e in the network part of e, and with addr in the host part of e. */
  predicate Shadows(f: Rule, e: Rule, addr: bv32) {
    && Network(e.foreign, f.netmask) == Network(f.foreign, e.netmask)
    && Network(Host(addr, e.netmask), f.netmask) == Host(f.foreign, e.netmask)
  }

  lemma ShadowsIff(f: Rule, e: Rule, addr: bv32)
    requires f.NoHostBits() && e.NoHostBits()
    ensures f.Matches(INCOMING, e.Rewrite(OUTGOING, addr)) <==> Shadows(f, e, addr)
  {
    hide Network, Host, Replace, Inside;
    var m, x := e.netmask, e.Rewrite(OUTGOING, addr);
    Replaced(addr, m, e.foreign);
    HostKept(addr, m, e.foreign);
    SameParts(Network(x, f.netmask), f.foreign, m);
    PartsOf(x, f.netmask, m);
  }

  function Host(addr: bv32, mask: bv32): bv32 {
    addr & !mask
  }

  function Join(a: bv32, b: bv32): bv32 {
    a | b
  }

  lemma Rejoined(addr: bv32, mask: bv32)
    ensures Join(Host(addr, mask), Network(addr, mask)) == addr
  {
    Unmasked(addr, mask);
  }

  lemma SameParts(x: bv32, y: bv32, mask: bv32)
    ensures x == y <==> Network(x, mask) == Network(y, mask) && Host(x, mask) == Host(y, mask)
  {
    hide Network, Host, Join;
    Rejoined(x, mask);
    Rejoined(y, mask);
  }

  lemma HostKept(addr: bv32, mask: bv32, to: bv32)
    requires Inside(to, mask)
    ensures Host(Replace(addr, mask, to), mask) == Host(addr, mask)
  {
    Masked(addr, mask, to);
  }

  lemma PartsOf(x: bv32, a: bv32, b: bv32)
    ensures Network(Network(x, a), b) == Network(Network(x, b), a) && Host(Network(x, a), b) == Network(Host(x, b), a)
  {
  }

  /** The condition for a reply to come back, on the rules and the address alone: no earlier
      rule of the kind shadows the one that the request meets; a request that meets none
      lies in no foreign range. */
  ghost predicate Returns(rules: seq<Rule>, kind: Bit, addr: bv32) {
    match FirstMatch(rules, kind, OUTGOING, addr)
    case Some(m) => forall j :: 0 <= j < m && rules[j].kind == kind ==> !Shadows(rules[j], rules[m], addr)
    case None => forall j :: 0 <= j < |rules| && rules[j].kind == kind ==> !rules[j].Matches(INCOMING, addr)
  }

  lemma ReturnsIff(rules: seq<Rule>, kind: Bit, addr: bv32)
    requires forall e :: e in rules ==> e.NoHostBits()
    ensures Returns(rules, kind, addr) <==>
      FirstMatch(rules, kind, INCOMING, Translate(rules, kind, OUTGOING, addr)) == FirstMatch(rules, kind, OUTGOING, addr)
  {
    hide Network, Host, Replace, Inside, Shadows;
    var m := FirstMatch(rules, kind, OUTGOING, addr);
    if m.Some? {
      var e := rules[m.value];
      assert e in rules;
      Moved(e, OUTGOING, addr);
      forall j | 0 <= j < m.value && rules[j].kind == kind
        ensures rules[j].Matches(INCOMING, e.Rewrite(OUTGOING, addr)) <==> Shadows(rules[j], e, addr)
      {
        assert rules[j] in rules;
        ShadowsIff(rules[j], e, addr);
      }
    }
  }

  /** An address comes back exactly if the reply meets the rule that the request met, or
      none if the request met none; and that depends on the rules and the address as
      Returns says. */
  lemma RestoredExactly(rules: seq<Rule>, kind: Bit, addr: bv32)
    requires forall e :: e in rules ==> e.NoHostBits()
    ensures var out := Translate(rules, kind, OUTGOING, addr);
      Translate(rules, kind, INCOMING, out) == addr <==>
      FirstMatch(rules, kind, INCOMING, out) == FirstMatch(rules, kind, OUTGOING, addr)
    ensures Translate(rules, kind, INCOMING, Translate(rules, kind, OUTGOING, addr)) == addr <==> Returns(rules, kind, addr)
  {
    hide Network, Replace, Inside, Returns;
    ReturnsIff(rules, kind, addr);
    var m := FirstMatch(rules, kind, OUTGOING, addr);
    var out := Translate(rules, kind, OUTGOING, addr);
    var back := FirstMatch(rules, kind, INCOMING, out);
    if m.Some? {
      assert rules[m.value] in rules;
      Moved(rules[m.value], OUTGOING, addr);
    }
    if back.Some? {
      assert rules[back.value] in rules;
      FromBack(rules[back.value], INCOMING, out);
    }
  }

  /** Rules of the same kind never claim the same foreign address. */
  ghost predicate ForeignDisjoint(rules: seq<Rule>) {
    forall i, j, a: bv32 :: 0 <= i < j < |rules| && rules[i].kind == rules[j].kind ==>
      !(rules[i].Matches(INCOMING, a) && rules[j].Matches(INCOMING, a))
  }

  /** The address is in a range of the kind's rules, or in no foreign range of them. */
  ghost predicate Unclaimed(rules: seq<Rule>, kind: Bit, addr: bv32) {
    FirstMatch(rules, kind, OUTGOING, addr).None? ==> FirstMatch(rules, kind, INCOMING, addr).None?
  }

  /** With disjoint foreign ranges, only an address that meets no rule but lies in a foreign
      range is not restored. */
  lemma RestoredIff(rules: seq<Rule>, kind: Bit, addr: bv32)
    requires (forall e :: e in rules ==> e.NoHostBits()) && ForeignDisjoint(rules)
    ensures Translate(rules, kind, INCOMING, Translate(rules, kind, OUTGOING, addr)) == addr <==> Unclaimed(rules, kind, addr)
  {
    hide Network, Replace, Inside;
    RestoredExactly(rules, kind, addr);
    var m := FirstMatch(rules, kind, OUTGOING, addr);
    if m.Some? {
      assert rules[m.value] in rules;
      Moved(rules[m.value], OUTGOING, addr);
    }
  }

  method Swap(p: Packet)
    modifies p
    ensures p.saddr == old(p.daddr) && p.daddr == old(p.saddr)
  {
    p.saddr, p.daddr := p.daddr, p.saddr;
  }

  /** A request leaves and its reply returns to it: exactly with unclaimed addresses the
      reply carries the addresses of the request, swapped. */
  method RequestReply(rules: seq<Rule>, p: Packet)
    requires (forall e :: e in rules ==> e.NoHostBits()) && ForeignDisjoint(rules)
    modifies p
    ensures p.saddr == old(p.daddr) && p.daddr == old(p.saddr)
      <==> Unclaimed(rules, SNAT, old(p.saddr)) && Unclaimed(rules, DNAT, old(p.daddr))
  {
    hide Translate, FirstMatch, ForeignDisjoint, Unclaimed;
    RestoredIff(rules, SNAT, p.saddr);
    RestoredIff(rules, DNAT, p.daddr);
    Transform(rules, p, OUTGOING);
    Swap(p);
    Transform(rules, p, INCOMING);
  }

  /** Overlapping foreign ranges: the reply goes to the wrong host. */
  lemma OverlapMisdirects()
    ensures exists rules: seq<Rule>, addr: bv32 ::
              && (forall e :: e in rules ==> e.NoHostBits())
              && Translate(rules, SNAT, INCOMING, Translate(rules, SNAT, OUTGOING, addr)) != addr
  {
    var mask: bv32 := 0xffff_ff00;
    var rules := [Rule(SNAT, 0x0a00_0100, mask, 0xc0a8_0100), Rule(SNAT, 0x0a00_0200, mask, 0xc0a8_0100)];
    var addr: bv32 := 0x0a00_0205;
    assert rules[0].NoHostBits() && rules[1].NoHostBits();
    assert FirstMatch(rules, SNAT, OUTGOING, addr) == Some(1);
    assert Translate(rules, SNAT, OUTGOING, addr) == 0xc0a8_0105;
    assert FirstMatch(rules, SNAT, INCOMING, 0xc0a8_0105) == Some(0);
  }
}
