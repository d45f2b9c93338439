/** Nodes of the emulated network; the name of a node is its kind's prefix followed by its id. */
module Nodes {
  /** No node of a topology is a user terminal, but addresses can be generated for one. */
  datatype Kind = Satellite | GroundStation | UserTerminal

  datatype NodeRef = NodeRef(kind: Kind, id: nat)

  /** Ids are unique across satellites and ground stations. */
  predicate UniqueIds(nodes: set<NodeRef>) {
    forall m, n | m in nodes && n in nodes :: m.id == n.id ==> m == n
  }
}

/** Who gets which address (satgonetem/utils/ip_utils.py, satgonetem/models/interface.py). */
module AddressPlan {
  import opened Wrappers
  import opened Bits
  import opened Nodes
  import opened IpUtils

  const MAX_ID: nat := 8192

  function OwnerCode(kind: Kind): (s: string)
    ensures |s| == 2 && IsBits(s)
  {
    match kind
    case Satellite => "10"
    case GroundStation => "01"
    case UserTerminal => "11"
  }

  lemma Pow2Of13()
    ensures Pow2(13) == MAX_ID
  {
    assert Pow2(5) == 32;
    assert Pow2(9) == 512;
  }

  /** The 13-bit rendering of an id. */
  function IdBits(id: nat): (s: string)
    requires id < MAX_ID
    ensures |s| == 13 && IsBits(s)
  {
    Pow2Of13();
    Fixed(id, 13)
  }

  lemma IdBitsInjective(a: nat, b: nat)
    requires a < MAX_ID && b < MAX_ID && IdBits(a) == IdBits(b)
    ensures a == b
  {
    Pow2Of13();
    ValFixed(a, 13);
    ValFixed(b, 13);
  }

  /** The 31 bits shared by both addresses generated for (node, peer). */
  function Base(node: nat, peer: nat, kind: Kind, loopback: bool): (s: string)
    requires node < MAX_ID && peer < MAX_ID
    ensures |s| == 31 && IsBits(s)
  {
    OwnerCode(kind) + IdBits(node) + (if loopback then "1" else "0") + IdBits(peer) + "1" + "0"
  }

  function GetIpv4Address(node: int, peer: int, kind: Kind, loopback: bool): Result<(string, string)> {
    if !(0 <= node < MAX_ID) || !(0 <= peer < MAX_ID) then Err(ValueError)
    else
      var base := Base(node, peer, kind, loopback);
      var (first, second) :=
        if node < peer then (QuadDot(base + "0"), QuadDot(base + "1"))
        else (QuadDot(base + "1"), QuadDot(base + "0"));
      if Octets(first).Err? || Octets(second).Err? then Err(ValueError) else Ok((first, second))
  }

  lemma ValidText(b: string)
    requires |b| == 32 && IsBits(b)
    ensures Octets(QuadDot(b)).Ok?
  {
    BinaryRoundTrip(b);
  }

  /** The generated texts are always valid addresses, so only an id out of range is refused. They read back as the
      two addresses of one /31 (section 2.1 of RFC 3021); the first is the even one exactly when it is for the
      node with the smaller id. */
  lemma GenerationSucceeds(node: int, peer: int, kind: Kind, loopback: bool)
    ensures var r := GetIpv4Address(node, peer, kind, loopback);
            && (r.Ok? <==> 0 <= node < MAX_ID && 0 <= peer < MAX_ID)
            && (r.Ok? ==>
                  var a, b := Ipv4ToBinary(r.value.0), Ipv4ToBinary(r.value.1);
                  && a.Ok? && b.Ok? && a.value[..31] == b.value[..31] && a.value != b.value
                  && (a.value[31] == '0' <==> node < peer))
  {
    hide QuadDot, Ipv4ToBinary, Octets, Base, IsBits;
    if 0 <= node < MAX_ID && 0 <= peer < MAX_ID {
      var base := Base(node, peer, kind, loopback);
      var even, odd := base + "0", base + "1";
      TwoTexts(base);
      var pair := if node < peer then (QuadDot(even), QuadDot(odd)) else (QuadDot(odd), QuadDot(even));
      assert GetIpv4Address(node, peer, kind, loopback) == Ok(pair);
    }
  }

  /** The two addresses of a block, as texts and back. */
  lemma TwoTexts(base: string)
    requires |base| == 31 && IsBits(base)
    ensures Octets(QuadDot(base + "0")).Ok? && Octets(QuadDot(base + "1")).Ok?
    ensures Ipv4ToBinary(QuadDot(base + "0")) == Ok(base + "0") && Ipv4ToBinary(QuadDot(base + "1")) == Ok(base + "1")
    ensures (base + "0")[..31] == (base + "1")[..31] && (base + "0")[31] == '0' && (base + "1")[31] == '1'
  {
    OneBit();
    hide QuadDot, Ipv4ToBinary, Octets, IsBits;
    ValidText(base + "0");
    ValidText(base + "1");
    BinaryRoundTrip(base + "0");
    BinaryRoundTrip(base + "1");
  }

  lemma OneBit()
    ensures forall s | IsBits(s) :: IsBits(s + "0") && IsBits(s + "1")
  {
  }

  lemma CodeInjective(k1: Kind, k2: Kind)
    requires OwnerCode(k1) == OwnerCode(k2)
    ensures k1 == k2
  {
    assert OwnerCode(k1)[0] == OwnerCode(k2)[0] && OwnerCode(k1)[1] == OwnerCode(k2)[1];
  }

  lemma BaseInjective(n1: nat, p1: nat, k1: Kind, l1: bool, n2: nat, p2: nat, k2: Kind, l2: bool)
    requires n1 < MAX_ID && p1 < MAX_ID && n2 < MAX_ID && p2 < MAX_ID
    requires Base(n1, p1, k1, l1) == Base(n2, p2, k2, l2)
    ensures n1 == n2 && p1 == p2 && k1 == k2 && l1 == l2
  {
    BaseSlices(n1, p1, k1, l1);
    BaseSlices(n2, p2, k2, l2);
    CodeInjective(k1, k2);
    IdBitsInjective(n1, n2);
    IdBitsInjective(p1, p2);
  }

  lemma BaseSlices(n: nat, p: nat, k: Kind, l: bool)
    requires n < MAX_ID && p < MAX_ID
    ensures var s := Base(n, p, k, l);
            && s[..2] == OwnerCode(k) && s[2..15] == IdBits(n)
            && s[15] == (if l then '1' else '0') && s[16..29] == IdBits(p)
  {
    var head := OwnerCode(k) + IdBits(n);
    var mark := if l then "1" else "0";
    var s := Base(n, p, k, l);
    assert s == head + mark + IdBits(p) + "10";
    assert |head| == 15 && head[2..] == IdBits(n);
    assert s[16..29] == IdBits(p);
  }

  /** Something that owns an address: a node's loopback, or a node's end of a link. */
  datatype Holder = LoopbackOf(node: NodeRef) | EndOf(node: NodeRef, peer: NodeRef)

  /** For every link, the end whose interface is assigned first. */
  type Order = map<set<NodeRef>, NodeRef>

  ghost predicate Addressable(h: Holder, nodes: set<NodeRef>, order: Order) {
    && h.node in nodes
    && (forall n | n in nodes :: n.id < MAX_ID)
    && (h.EndOf? ==>
          && h.peer in nodes && h.peer != h.node
          && {h.node, h.peer} in order && order[{h.node, h.peer}] in {h.node, h.peer})
  }

  function FirstEnd(h: Holder, order: Order): NodeRef
    requires h.EndOf? && {h.node, h.peer} in order
  {
    order[{h.node, h.peer}]
  }

  /** The address a holder ends up with, given which end of each link is assigned first. */
  function AddressOf(h: Holder, order: Order): Option<string>
    requires h.EndOf? ==> {h.node, h.peer} in order
  {
    match h
    case LoopbackOf(n) =>
      (match GetIpv4Address(n.id, n.id, n.kind, true)
       case Ok(pair) => Some(pair.0)
       case Err(_) => None)
    case EndOf(n, p) =>
      var f := FirstEnd(h, order);
      var o := if f == n then p else n;
      match GetIpv4Address(f.id, o.id, f.kind, false)
      case Ok(pair) => Some(if f == n then pair.0 else pair.1)
      case Err(_) => None
  }

  /** The 31 leading bits of a holder's address. */
  function Block(h: Holder, order: Order): (s: string)
    requires h.node.id < MAX_ID
    requires h.EndOf? ==> h.peer.id < MAX_ID && {h.node, h.peer} in order
    requires h.EndOf? ==> FirstEnd(h, order) in {h.node, h.peer}
    ensures |s| == 31 && IsBits(s)
  {
    match h
    case LoopbackOf(n) => Base(n.id, n.id, n.kind, true)
    case EndOf(n, p) =>
      var f := FirstEnd(h, order);
      Base(f.id, (if f == n then p else n).id, f.kind, false)
  }

  /** The last bit of a holder's address. */
  function LastBit(h: Holder): (s: string)
    ensures |s| == 1 && IsBits(s)
  {
    if h.EndOf? && h.node.id < h.peer.id then "0" else "1"
  }

  /** The end with the smaller id takes the even address of the pair, whichever end was first. */
  lemma AddressBits(h: Holder, nodes: set<NodeRef>, order: Order)
    requires Addressable(h, nodes, order) && UniqueIds(nodes)
    ensures AddressOf(h, order) ==
            Some(QuadDot(Block(h, order) + LastBit(h)))
  {
    match h
    case LoopbackOf(n) => GenerationSucceeds(n.id, n.id, n.kind, true);
    case EndOf(n, p) =>
      var f := FirstEnd(h, order);
      GenerationSucceeds(f.id, (if f == n then p else n).id, f.kind, false);
  }

  /** A /31 block belongs to one holder, or to the two ends of one link. */
  lemma BlocksSeparate(g: Holder, h: Holder, nodes: set<NodeRef>, order: Order)
    requires Addressable(g, nodes, order) && Addressable(h, nodes, order) && UniqueIds(nodes)
    ensures Block(g, order) == Block(h, order) <==>
            g == h || (g.EndOf? && h == EndOf(g.peer, g.node))
  {
    if Block(g, order) == Block(h, order) {
      var n1 := if g.EndOf? then FirstEnd(g, order) else g.node;
      var p1 := if g.EndOf? && n1 == g.node then g.peer else g.node;
      var n2 := if h.EndOf? then FirstEnd(h, order) else h.node;
      var p2 := if h.EndOf? && n2 == h.node then h.peer else h.node;
      BaseInjective(n1.id, p1.id, n1.kind, g.LoopbackOf?, n2.id, p2.id, n2.kind, h.LoopbackOf?);
      assert n1 == n2 && p1 == p2;
    } else if g.EndOf? {
      assert {g.node, g.peer} == {g.peer, g.node};
    }
  }

  lemma SameBlockAndBit(a: string, x: string, b: string, y: string)
    requires |a| == |b| == 31 && IsBits(a) && IsBits(b) && |x| == |y| == 1 && IsBits(x) && IsBits(y)
    requires QuadDot(a + x) == QuadDot(b + y)
    ensures a == b && x == y
  {
    QuadDotInjective(a + x, b + y);
    assert (a + x)[..31] == a && (b + y)[..31] == b;
    assert (a + x)[31] == x[0] && (b + y)[31] == y[0];
  }

  /** No two holders share an address, and the two ends of a link sit in one /31 of their own. */
  lemma AddressesDistinct(g: Holder, h: Holder, nodes: set<NodeRef>, order: Order)
    requires Addressable(g, nodes, order) && Addressable(h, nodes, order) && UniqueIds(nodes)
    ensures AddressOf(g, order).Some? && AddressOf(h, order).Some?
    ensures AddressOf(g, order) == AddressOf(h, order) <==> g == h
  {
    AddressBits(g, nodes, order);
    AddressBits(h, nodes, order);
    if AddressOf(g, order) == AddressOf(h, order) {
      SameBlockAndBit(Block(g, order), LastBit(g), Block(h, order), LastBit(h));
      BlocksSeparate(g, h, nodes, order);
    }
  }

  // ---- Routes ----

  /** The /15 a node's loopback summarizes to, as bits. */
  function Slash15(n: NodeRef): (s: string)
    requires n.id < MAX_ID
    ensures |s| == 15 && IsBits(s)
  {
    OwnerCode(n.kind) + IdBits(n.id)
  }

  function LoopbackBits(n: NodeRef): (s: string)
    requires n.id < MAX_ID
    ensures |s| == 32 && IsBits(s)
  {
    Base(n.id, n.id, n.kind, true) + "1"
  }

  /** Summarizing a loopback to 15 bits gives a destination of that node's own. */
  lemma LoopbackSummary(n: NodeRef)
    requires n.id < MAX_ID
    ensures Summarize(QuadDot(LoopbackBits(n)), 15) == Ok(QuadDot(Slash15(n) + Zeros(17)))
  {
    var b := LoopbackBits(n);
    BinaryRoundTrip(b);
    SummarizeKeepsPrefix(QuadDot(b), 15);
    assert b[..15] == Slash15(n);
  }

  lemma SummariesDistinct(m: NodeRef, n: NodeRef)
    requires m.id < MAX_ID && n.id < MAX_ID
    requires QuadDot(Slash15(m) + Zeros(17)) == QuadDot(Slash15(n) + Zeros(17))
    ensures m == n
  {
    var s, t := Slash15(m) + Zeros(17), Slash15(n) + Zeros(17);
    QuadDotInjective(s, t);
    assert s[..2] == OwnerCode(m.kind) && t[..2] == OwnerCode(n.kind);
    CodeInjective(m.kind, n.kind);
    assert s[2..15] == IdBits(m.id) && t[2..15] == IdBits(n.id);
    IdBitsInjective(m.id, n.id);
  }

  /** A route's prefix (leading bits) covers an address. */
  predicate Covers(prefix: string, address: string) {
    prefix <= address
  }

  /** The longest prefix of the table covering the address, if any covers it. */
  ghost predicate IsLongestMatch(routes: set<string>, address: string, best: string) {
    && best in routes && Covers(best, address)
    && forall r | r in routes && Covers(r, address) :: |r| <= |best|
  }

  /** A node's table holds /15 routes to nodes and /31 connected routes of its own link ends. */
  ghost predicate NodeRoutes(routes: set<string>, nodes: set<NodeRef>, order: Order) {
    forall r | r in routes ::
      || (exists n | n in nodes :: n.id < MAX_ID && r == Slash15(n))
      || (exists h: Holder | h.EndOf? && Addressable(h, nodes, order) :: r == Block(h, order))
  }

  /** A link end's connected route never covers a loopback. */
  lemma ConnectedRouteMisses(h: Holder, d: NodeRef, nodes: set<NodeRef>, order: Order)
    requires h.EndOf? && Addressable(h, nodes, order) && d.id < MAX_ID
    ensures !Covers(Block(h, order), LoopbackBits(d))
  {
    assert LoopbackBits(d)[15] == '1' && Block(h, order)[15] == '0';
  }

  /** Looking a loopback up selects that node's /15 and nothing else. */
  lemma LoopbackLookup(routes: set<string>, nodes: set<NodeRef>, order: Order, d: NodeRef, best: string)
    requires UniqueIds(nodes) && d in nodes && d.id < MAX_ID && NodeRoutes(routes, nodes, order)
    requires Slash15(d) in routes
    ensures IsLongestMatch(routes, LoopbackBits(d), best) <==> best == Slash15(d)
  {
    var a := LoopbackBits(d);
    assert a[..15] == Slash15(d);
    forall r | r in routes && Covers(r, a)
      ensures r == Slash15(d)
    {
      forall h: Holder | h.EndOf? && Addressable(h, nodes, order)
        ensures r != Block(h, order)
      {
        ConnectedRouteMisses(h, d, nodes, order);
      }
      var n :| n in nodes && n.id < MAX_ID && r == Slash15(n);
      assert |r| == 15 && a[..15] == r;
    }
  }
}

/** The interface object's address field and its assignment (satgonetem/models/interface.py:39-71). */
module InterfaceAddressing {
  import opened Wrappers
  import opened Nodes
  import opened AddressPlan

  class Interface {
    const owner: NodeRef
    const peerId: nat
    const loopback: bool
    var ipv4: string
    var peer: Interface?

    constructor (owner: NodeRef, peerId: nat, loopback: bool)
      ensures this.owner == owner && this.peerId == peerId && this.loopback == loopback
      ensures ipv4 == "" && peer == null
    {
      this.owner, this.peerId, this.loopback := owner, peerId, loopback;
      ipv4, peer := "", null;
    }

    /** Assigns this interface, and its peer along with it; an address already set is kept. */
    method SetIpv4Address() returns (r: Result<()>)
      requires !loopback ==> peer != null && peer != this
      modifies this`ipv4, if peer == null then {} else {peer}
      ensures peer == old(peer) && (peer != null ==> peer.peer == old(peer.peer))
      ensures old(ipv4) != "" ==> r.Ok? && ipv4 == old(ipv4) && (peer != null ==> peer.ipv4 == old(peer.ipv4))
      ensures old(ipv4) == "" ==>
                var pair := GetIpv4Address(owner.id, if loopback then owner.id else peerId, owner.kind, loopback);
                && r.Ok? == pair.Ok?
                && ipv4 == (if pair.Ok? then pair.value.0 else "")
                && (peer != null && peer != this ==>
                      peer.ipv4 == if pair.Ok? && !loopback then pair.value.1 else old(peer.ipv4))
    {
      if ipv4 != "" {
        return Ok(());
      }
      if loopback {
        match GetIpv4Address(owner.id, owner.id, owner.kind, true) {
          case Ok(pair) => ipv4 := pair.0;
          case Err(e) => return Err(e);
        }
      } else {
        match GetIpv4Address(owner.id, peerId, owner.kind, false) {
          case Ok(pair) =>
            ipv4 := pair.0;
            peer.ipv4 := pair.1;
          case Err(e) => return Err(e);
        }
      }
      return Ok(());
    }
  }

  /** Both ends of a new link are assigned in turn; the second call finds its address already set, and
      each end holds the address the plan gives it for the order in which they were assigned. */
  method AssignBothEnds(a: Interface, b: Interface, nodes: set<NodeRef>)
    requires a != b && a.peer == b && b.peer == a && !a.loopback && !b.loopback
    requires a.peerId == b.owner.id && b.peerId == a.owner.id && a.ipv4 == "" && b.ipv4 == ""
    requires UniqueIds(nodes) && a.owner in nodes && b.owner in nodes && a.owner != b.owner
    requires forall n | n in nodes :: n.id < MAX_ID
    modifies a, b
    ensures a.peer == b && b.peer == a
    ensures var order := map[{a.owner, b.owner} := a.owner];
            && {b.owner, a.owner} in order
            && Some(a.ipv4) == AddressOf(EndOf(a.owner, b.owner), order)
            && Some(b.ipv4) == AddressOf(EndOf(b.owner, a.owner), order)
            && a.ipv4 != b.ipv4
  {
    BothEnds(a.owner, b.owner, nodes);
    var r := a.SetIpv4Address();
    r := b.SetIpv4Address();
  }

  /** What the plan gives the two ends of one link when m is assigned first. */
  lemma BothEnds(m: NodeRef, n: NodeRef, nodes: set<NodeRef>)
    requires UniqueIds(nodes) && m in nodes && n in nodes && m != n
    requires forall x | x in nodes :: x.id < MAX_ID
    ensures var order := map[{m, n} := m];
            && {n, m} in order
            && GetIpv4Address(m.id, n.id, m.kind, false).Ok?
            && var pair := GetIpv4Address(m.id, n.id, m.kind, false).value;
            && AddressOf(EndOf(m, n), order) == Some(pair.0)
            && AddressOf(EndOf(n, m), order) == Some(pair.1)
            && pair.0 != pair.1 && pair.1 != ""
  {
    var order := map[{m, n} := m];
    assert {n, m} == {m, n};
    GenerationSucceeds(m.id, n.id, m.kind, false);
    AddressesDistinct(EndOf(m, n), EndOf(n, m), nodes, order);
    NonEmpty(n, m, nodes, order);
  }

  lemma NonEmpty(n: NodeRef, p: NodeRef, nodes: set<NodeRef>, order: Order)
    requires Addressable(EndOf(n, p), nodes, order) && UniqueIds(nodes)
    ensures AddressOf(EndOf(n, p), order).Some? && AddressOf(EndOf(n, p), order).value != ""
  {
    AddressBits(EndOf(n, p), nodes, order);
  }
}
