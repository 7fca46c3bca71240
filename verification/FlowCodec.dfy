/** The 64-byte IPv4 flow entry: encoders, validator and the entries they stand for. */
module FlowCodec {
  import opened Outcomes

  type byte = n: int | 0 <= n < 256
  type Bytes = seq<byte>
  type Address = n: int | 0 <= n < 0x1_0000_0000

  function BE16(n: int): (b: Bytes)
    requires 0 <= n < 0x1_0000
    ensures |b| == 2 && Int16(b) == n
  {
    [n / 256, n % 256]
  }

  function BE32(n: int): (b: Bytes)
    requires 0 <= n < 0x1_0000_0000
    ensures |b| == 4 && Int32(b) == n
  {
    BE16(n / 0x1_0000) + BE16(n % 0x1_0000)
  }

  function Int16(b: Bytes): (n: int)
    requires |b| == 2
    ensures 0 <= n < 0x1_0000
  {
    (b[0] as int) * 256 + b[1]
  }

  function Int32(b: Bytes): (n: int)
    requires |b| == 4
    ensures 0 <= n < 0x1_0000_0000
  {
    Int16(b[..2]) * 0x1_0000 + Int16(b[2..])
  }

  lemma BE16OfInt16(b: Bytes)
    requires |b| == 2
    ensures BE16(Int16(b)) == b
  {
  }

  lemma BE32OfInt32(b: Bytes)
    requires |b| == 4
    ensures BE32(Int32(b)) == b
  {
    var hi, lo := Int16(b[..2]), Int16(b[2..]);
    assert (hi * 0x1_0000 + lo) / 0x1_0000 == hi;
    BE16OfInt16(b[..2]);
    BE16OfInt16(b[2..]);
    assert b == b[..2] + b[2..];
  }

  function Zeros(n: nat): (b: Bytes)
    ensures |b| == n
    ensures forall i :: 0 <= i < n ==> b[i] == 0
  {
    seq(n, _ => 0)
  }

  /** The range check every encoder applies to an integer argument. */
  predicate Uint(value: int, limit: nat) {
    0 <= value < limit
  }

  const U16: nat := 0x1_0000
  const U32: nat := 0x1_0000_0000

  predicate Unicast(a: Address) {
    a != 0 && !(0xE000_0000 <= a < 0xF000_0000)
  }

  // ---------------------------------------------------------------- encoders

  function Key4(src: Address, dst: Address, sport: int, dport: int, protocol: int, zone: int): Result<Bytes> {
    if protocol != 6 && protocol != 17 then Error
    else if !Unicast(src) || !Unicast(dst) then Error
    else if !Uint(zone, U16) || !Uint(sport, U16) || !Uint(dport, U16) then Error
    else Ok([0x40, protocol] + BE16(zone) + BE16(sport) + BE16(dport) + BE32(src) + BE32(dst))
  }

  function Entry4(key: Bytes, flowId: int): Result<Bytes> {
    if |key| != 16 || key[0] != 0x40 || (key[1] != 6 && key[1] != 17) then Error
    else if !Uint(flowId, U32) then Error
    else Ok(key + Zeros(20) + BE32(flowId) + Zeros(24))
  }

  const DROP := 0x0800_0000    // bit 27
  const NH := 0x0400_0000      // bit 26
  const CT := 0x8000_0000      // bit 31
  const TTL := 0x1000_0000     // bit 28
  const NAT := 0x2000_0000     // bit 29, low bit of the two-bit NAT mode

  function ForwardingEntry4(key: Bytes, flowId: int, nextHop: Option<int>, drop: bool, ttl: bool): (r: Result<Bytes>)
    ensures r.Ok? ==> |r.value| == 64 && Int32(r.value[16..20]) <= CT + NH + TTL
  {
    if drop && (nextHop.Some? || ttl) then Error
    else if !drop && (nextHop.None? || !Uint(nextHop.value, U16)) then Error
    else
      var flags := if drop then DROP else CT + NH + if ttl then TTL else 0;
      var override := if drop then 0 else nextHop.value;
      match Entry4(key, flowId)
      case Error => Error
      case Ok(wire) =>
        var acted := wire[..16] + BE32(flags) + BE32(override) + wire[24..];
        assert acted[16..20] == BE32(flags);
        Ok(acted)
  }

  /** A complete translated IPv4 tuple. */
  datatype Translation = Translation(source: Address, destination: Address, sport: int, dport: int)

  function NatEntry4(key: Bytes, flowId: int, nextHop: int, t: Translation, ttl: bool): Result<Bytes> {
    match ForwardingEntry4(key, flowId, Some(nextHop), false, ttl)
    case Error => Error
    case Ok(wire) =>
      match Key4(t.source, t.destination, t.sport, t.dport, key[1], Int16(key[2..4]))
      case Error => Error
      case Ok(target) =>
        if target == key then Error
        else
          var mode := if target[4..8] != key[4..8] then 2 else 1;
          var flags := Int32(wire[16..20]) + mode * NAT;   // the two mode bits are clear in wire
          Ok(wire[..16] + BE32(flags) + wire[20..48] + target[8..16] + target[4..8] + wire[60..])
  }

  /** The two NAT mode bits of the flags word: (flags >> 29) & 3. */
  function ModeBits(flags: int): int
    requires 0 <= flags < U32
  {
    flags / NAT % 4
  }

  function OutputKey4(wire: Bytes): (key: Bytes)
    requires |wire| == 64
    ensures |key| == 16
  {
    if ModeBits(Int32(wire[16..20])) != 0 then wire[..4] + wire[56..60] + wire[48..56] else wire[..16]
  }

  function TranslationOf(wire: Bytes): Translation
    requires |wire| == 64
  {
    Translation(Int32(wire[48..52]), Int32(wire[52..56]), Int16(wire[56..58]), Int16(wire[58..60]))
  }

  /** The encoding the validator expects for the flags it finds. */
  function ExpectedEntry4(wire: Bytes): Result<Bytes>
    requires |wire| == 64
  {
    var key, flowId := wire[..16], Int32(wire[36..40]);
    var flags, override := Int32(wire[16..20]), Int32(wire[20..24]);
    var mode := ModeBits(flags);
    var plainFlags := flags - mode * NAT;
    if flags == DROP then ForwardingEntry4(key, flowId, None, true, false)
    else if plainFlags == CT + NH || plainFlags == CT + NH + TTL then
      var ttl := plainFlags == CT + NH + TTL;
      if mode == 3 then Error
      else if mode != 0 then NatEntry4(key, flowId, override, TranslationOf(wire), ttl)
      else ForwardingEntry4(key, flowId, Some(override), false, ttl)
    else Error
  }

  function ValidateEntry4(wire: Bytes): (r: Result<Bytes>)
    ensures r.Ok? ==> r.value == wire && |wire| == 64
  {
    if |wire| != 64 then Error
    else
      match Entry4(wire[..16], Int32(wire[36..40]))
      case Error => Error
      case Ok(identity) =>
        if wire == identity then Ok(wire)
        else
          match ExpectedEntry4(wire)
          case Error => Error
          case Ok(expected) => if wire == expected then Ok(wire) else Error
  }

  // ------------------------------------------------- the entries wires stand for

  /** A directional lookup key.  The zone is the ingress lookup zone. */
  datatype Key = Key(protocol: int, zone: int, sport: int, dport: int, src: Address, dst: Address) {
    predicate Valid() {
      (protocol == 6 || protocol == 17) && Uint(zone, U16) && Uint(sport, U16) && Uint(dport, U16)
    }
    function Encode(): (b: Bytes)
      requires Valid()
      ensures |b| == 16
    {
      [0x40, protocol] + BE16(zone) + BE16(sport) + BE16(dport) + BE32(src) + BE32(dst)
    }
    function Tuple(): Translation {
      Translation(src, dst, sport, dport)
    }
    /** Protocol, addresses and ports match with the two ends exchanged; zones are not compared. */
    predicate Reverses(other: Key) {
      && protocol == other.protocol
      && sport == other.dport && dport == other.sport
      && src == other.dst && dst == other.src
    }
  }

  datatype Action =
    | Identity
    | Drop
    | Forward(nextHop: int, ttl: bool)
    | Nat(nextHop: int, ttl: bool, to: Translation)

  datatype Entry = Entry(key: Key, flowId: int, action: Action) {
    predicate Valid() {
      && key.Valid() && Uint(flowId, U32)
      && match action
         case Identity | Drop => true
         case Forward(hop, _) => Uint(hop, U16)
         case Nat(hop, _, to) =>
           && Uint(hop, U16) && Unicast(to.source) && Unicast(to.destination)
           && Uint(to.sport, U16) && Uint(to.dport, U16)
           && to != key.Tuple()
    }

    /** What FLOWADD alone leaves behind: same key, same flow ID, no action. */
    function Bare(): Entry {
      this.(action := Identity)
    }

    /** The key the packet carries after the action. */
    function Output(): Key {
      match action
      case Nat(_, _, to) => key.(src := to.source, dst := to.destination, sport := to.sport, dport := to.dport)
      case _ => key
    }

    predicate Translates() {
      action.Nat?
    }

    function Hop(): Option<int> {
      match action
      case Forward(hop, _) => Some(hop)
      case Nat(hop, _, _) => Some(hop)
      case _ => None
    }

    /** The wire form, through the encoder that its action calls for. */
    function Encode(): Result<Bytes>
      requires key.Valid()
    {
      match action
      case Identity => Entry4(key.Encode(), flowId)
      case Drop => ForwardingEntry4(key.Encode(), flowId, None, true, false)
      case Forward(hop, ttl) => ForwardingEntry4(key.Encode(), flowId, Some(hop), false, ttl)
      case Nat(hop, ttl, to) => NatEntry4(key.Encode(), flowId, hop, to, ttl)
    }

    function Flags(): int {
      match action
      case Identity => 0
      case Drop => DROP
      case Forward(_, ttl) => CT + NH + if ttl then TTL else 0
      case Nat(_, ttl, to) =>
        var mode := if to.sport != key.sport || to.dport != key.dport then 2 else 1;
        CT + NH + (if ttl then TTL else 0) + mode * NAT
    }

    function Override(): int {
      if Hop().Some? then Hop().value else 0
    }

    function NatBytes(): (b: Bytes)
      requires Valid()
      ensures |b| == 12
    {
      if action.Nat? then
        BE32(action.to.source) + BE32(action.to.destination) + BE16(action.to.sport) + BE16(action.to.dport)
      else Zeros(12)
    }
  }

  /** The field layout shared by all encodings. */
  function Layout(key: Bytes, flags: int, override: int, flowId: int, rewrite: Bytes): (w: Bytes)
    requires |key| == 16 && |rewrite| == 12
    requires Uint(flags, U32) && Uint(override, U32) && Uint(flowId, U32)
    ensures |w| == 64
  {
    key + BE32(flags) + BE32(override) + Zeros(12) + BE32(flowId) + Zeros(8) + rewrite + Zeros(4)
  }

  lemma LayoutFields(key: Bytes, flags: int, override: int, flowId: int, rewrite: Bytes)
    requires |key| == 16 && |rewrite| == 12
    requires Uint(flags, U32) && Uint(override, U32) && Uint(flowId, U32)
    ensures var w := Layout(key, flags, override, flowId, rewrite);
      && w[..16] == key && w[16..20] == BE32(flags) && w[20..24] == BE32(override)
      && w[36..40] == BE32(flowId) && w[48..60] == rewrite
  {
  }

  lemma Entry4Layout(key: Bytes, flowId: int)
    requires Entry4(key, flowId).Ok?
    ensures Entry4(key, flowId).value == Layout(key, 0, 0, flowId, Zeros(12))
  {
  }

  lemma ForwardingLayout(key: Bytes, flowId: int, nextHop: Option<int>, drop: bool, ttl: bool)
    requires ForwardingEntry4(key, flowId, nextHop, drop, ttl).Ok?
    ensures |key| == 16 && Uint(flowId, U32)
    ensures drop ==> ForwardingEntry4(key, flowId, nextHop, drop, ttl).value == Layout(key, DROP, 0, flowId, Zeros(12))
    ensures !drop ==> nextHop.Some? && Uint(nextHop.value, U16)
    ensures !drop ==> ForwardingEntry4(key, flowId, nextHop, drop, ttl).value
                      == Layout(key, CT + NH + (if ttl then TTL else 0), nextHop.value, flowId, Zeros(12))
  {
    Entry4Layout(key, flowId);
    var w := Layout(key, 0, 0, flowId, Zeros(12));
    var flags := if drop then DROP else CT + NH + if ttl then TTL else 0;
    var override := if drop then 0 else nextHop.value;
    LayoutFields(key, 0, 0, flowId, Zeros(12));
    assert w[24..] == Zeros(12) + BE32(flowId) + Zeros(8) + Zeros(12) + Zeros(4);
    assert w[..16] + BE32(flags) + BE32(override) + w[24..] == Layout(key, flags, override, flowId, Zeros(12));
  }

  lemma KeyFields(k: Key)
    requires k.Valid()
    ensures var b := k.Encode();
      && b[0] == 0x40 && b[1] == k.protocol && b[2..4] == BE16(k.zone) && b[..4] == [0x40, k.protocol] + BE16(k.zone)
      && b[4..6] == BE16(k.sport) && b[6..8] == BE16(k.dport) && b[4..8] == BE16(k.sport) + BE16(k.dport)
      && b[8..12] == BE32(k.src) && b[12..16] == BE32(k.dst) && b[8..16] == BE32(k.src) + BE32(k.dst)
  {
    hide BE16, BE32, Int16, Int32;
    var head: Bytes := [0x40, k.protocol];
    Pieces(head, BE16(k.zone), BE16(k.sport), BE16(k.dport), BE32(k.src), BE32(k.dst));
  }

  lemma Pieces(a: Bytes, b: Bytes, c: Bytes, d: Bytes, e: Bytes, f: Bytes)
    requires |a| == |b| == |c| == |d| == 2 && |e| == |f| == 4
    ensures var w := a + b + c + d + e + f;
      && w[0] == a[0] && w[1] == a[1] && w[2..4] == b && w[..4] == a + b && w[4..6] == c && w[6..8] == d && w[4..8] == c + d
      && w[8..12] == e && w[12..16] == f && w[8..16] == e + f
  {
  }

  lemma KeyInjective(a: Key, b: Key)
    requires a.Valid() && b.Valid() && a.Encode() == b.Encode()
    ensures a == b
  {
    KeyFields(a);
    KeyFields(b);
  }

  /** Every valid key prefix is the encoding of a key. */
  function DecodeKey(b: Bytes): (k: Key)
    requires |b| == 16 && b[0] == 0x40 && (b[1] == 6 || b[1] == 17)
    ensures k.Valid() && k.Encode() == b
  {
    var k := Key(b[1], Int16(b[2..4]), Int16(b[4..6]), Int16(b[6..8]), Int32(b[8..12]), Int32(b[12..16]));
    BE16OfInt16(b[2..4]); BE16OfInt16(b[4..6]); BE16OfInt16(b[6..8]);
    BE32OfInt32(b[8..12]); BE32OfInt32(b[12..16]);
    assert k.Encode() == b;
    k
  }

  lemma NatLayout(k: Key, flowId: int, hop: int, t: Translation, ttl: bool)
    requires k.Valid()
    ensures NatEntry4(k.Encode(), flowId, hop, t, ttl).Ok? <==> Entry(k, flowId, Nat(hop, ttl, t)).Valid()
    ensures Entry(k, flowId, Nat(hop, ttl, t)).Valid() ==>
      var e := Entry(k, flowId, Nat(hop, ttl, t));
      NatEntry4(k.Encode(), flowId, hop, t, ttl).value == Layout(k.Encode(), e.Flags(), hop, flowId, e.NatBytes())
  {
    var key := k.Encode();
    KeyFields(k);
    var e := Entry(k, flowId, Nat(hop, ttl, t));
    if ForwardingEntry4(key, flowId, Some(hop), false, ttl).Ok? {
      ForwardingLayout(key, flowId, Some(hop), false, ttl);
      var target := Key4(t.source, t.destination, t.sport, t.dport, key[1], Int16(key[2..4]));
      if target.Ok? {
        var tk := k.(src := t.source, dst := t.destination, sport := t.sport, dport := t.dport);
        assert target.value == tk.Encode();
        KeyFields(tk);
        if tk.Encode() == key {
          KeyInjective(tk, k);
        } else {
          NatImage(k, flowId, hop, t, ttl);
        }
      }
    }
  }

  lemma Rewritten(key: Bytes, flags: int, override: int, flowId: int, newFlags: int, addresses: Bytes, ports: Bytes)
    requires |key| == 16 && |addresses| == 8 && |ports| == 4
    requires Uint(flags, U32) && Uint(override, U32) && Uint(flowId, U32) && Uint(newFlags, U32)
    ensures var w := Layout(key, flags, override, flowId, Zeros(12));
      w[..16] + BE32(newFlags) + w[20..48] + addresses + ports + w[60..]
      == Layout(key, newFlags, override, flowId, addresses + ports)
  {
  }

  lemma NatImage(k: Key, flowId: int, hop: int, t: Translation, ttl: bool)
    requires Entry(k, flowId, Nat(hop, ttl, t)).Valid()
    ensures var e := Entry(k, flowId, Nat(hop, ttl, t));
      NatEntry4(k.Encode(), flowId, hop, t, ttl) == Ok(Layout(k.Encode(), e.Flags(), hop, flowId, e.NatBytes()))
  {
    var e := Entry(k, flowId, Nat(hop, ttl, t));
    var key := k.Encode();
    var tk := k.(src := t.source, dst := t.destination, sport := t.sport, dport := t.dport);
    KeyFields(k);
    KeyFields(tk);
    if tk.Encode() == key { KeyInjective(tk, k); }
    ForwardingLayout(key, flowId, Some(hop), false, ttl);
    var flags0 := CT + NH + if ttl then TTL else 0;
    LayoutFields(key, flags0, hop, flowId, Zeros(12));
    var wire := Layout(key, flags0, hop, flowId, Zeros(12));
    var target := tk.Encode();
    assert (target[4..8] != key[4..8]) <==> (t.sport != k.sport || t.dport != k.dport) by {
      assert target[4..8][..2] == BE16(t.sport) && target[4..8][2..] == BE16(t.dport);
      assert key[4..8][..2] == BE16(k.sport) && key[4..8][2..] == BE16(k.dport);
    }
    assert target[8..16] + target[4..8] == e.NatBytes();
    Rewritten(key, flags0, hop, flowId, e.Flags(), target[8..16], target[4..8]);
    FlagFacts(e);
    hide Layout, Entry.NatBytes, Key.Encode, BE32, BE16;
  }

  /** Every valid entry encodes, to the common layout. */
  lemma EncodeLayout(e: Entry)
    requires e.key.Valid()
    ensures e.Encode().Ok? <==> e.Valid()
    ensures e.Valid() ==> Uint(e.Flags(), U32)
    ensures e.Valid() ==> e.Encode().value == Layout(e.key.Encode(), e.Flags(), e.Override(), e.flowId, e.NatBytes())
  {
    KeyFields(e.key);
    match e.action
    case Identity => if e.Valid() { Entry4Layout(e.key.Encode(), e.flowId); }
    case Drop => if e.Valid() { ForwardingLayout(e.key.Encode(), e.flowId, None, true, false); }
    case Forward(hop, ttl) => if e.Valid() { ForwardingLayout(e.key.Encode(), e.flowId, Some(hop), false, ttl); }
    case Nat(hop, ttl, to) => NatLayout(e.key, e.flowId, hop, to, ttl);
  }

  /** Different entries encode differently. */
  lemma EncodeInjective(a: Entry, b: Entry)
    requires a.Valid() && b.Valid() && a.Encode() == b.Encode()
    ensures a == b
  {
    EncodeLayout(a);
    EncodeLayout(b);
    LayoutFields(a.key.Encode(), a.Flags(), a.Override(), a.flowId, a.NatBytes());
    LayoutFields(b.key.Encode(), b.Flags(), b.Override(), b.flowId, b.NatBytes());
    KeyInjective(a.key, b.key);
    assert a.Flags() == b.Flags() && a.flowId == b.flowId && a.Override() == b.Override();
    if a.action.Nat? {
      assert b.action.Nat?;
      NatBytesFields(a);
      NatBytesFields(b);
    }
  }

  lemma NatBytesFields(e: Entry)
    requires e.Valid() && e.action.Nat?
    ensures var b, t := e.NatBytes(), e.action.to;
      && b[..4] == BE32(t.source) && b[4..8] == BE32(t.destination) && b[..8] == BE32(t.source) + BE32(t.destination)
      && b[8..10] == BE16(t.sport) && b[10..12] == BE16(t.dport) && b[8..12] == BE16(t.sport) + BE16(t.dport)
  {
  }

  /** An encoded entry is read back by the validator's own field accesses. */
  lemma ReadBack(e: Entry)
    requires e.Valid()
    ensures e.Encode().Ok? && |e.Encode().value| == 64
    ensures var w := e.Encode().value;
      && w[..16] == e.key.Encode() && Int32(w[16..20]) == e.Flags() && Int32(w[20..24]) == e.Override()
      && Int32(w[36..40]) == e.flowId
      && (e.action.Nat? ==> TranslationOf(w) == e.action.to)
  {
    EncodeLayout(e);
    LayoutFields(e.key.Encode(), e.Flags(), e.Override(), e.flowId, e.NatBytes());
    if e.action.Nat? {
      NatBytesFields(e);
      var w := e.Encode().value;
      assert w[48..52] == w[48..60][..4] && w[52..56] == w[48..60][4..8];
      assert w[56..58] == w[48..60][8..10] && w[58..60] == w[48..60][10..12];
    }
  }

  lemma FlagFacts(e: Entry)
    ensures Uint(e.Flags(), U32)
    ensures var mode := ModeBits(e.Flags());
      && (mode != 0 <==> e.Translates()) && mode != 3
      && (e.Hop().Some? ==> e.Flags() - mode * NAT == CT + NH + (if e.action.ttl then TTL else 0))
  {
  }

  lemma ExpectedIsTheEncoding(e: Entry)
    requires e.Valid() && !e.action.Identity?
    ensures e.Encode().Ok? && |e.Encode().value| == 64 && ExpectedEntry4(e.Encode().value) == e.Encode()
  {
    ReadBack(e);
    FlagFacts(e);
    hide Layout, Entry4, ForwardingEntry4, NatEntry4, ModeBits, Int32, Int16, TranslationOf, Key.Encode, Key.Valid, Entry.Valid;
  }

  lemma ValidatorAcceptsEncodings(e: Entry)
    requires e.Valid()
    ensures e.Encode().Ok? && ValidateEntry4(e.Encode().value) == e.Encode()
  {
    ReadBack(e);
    KeyFields(e.key);
    if !e.action.Identity? { ExpectedIsTheEncoding(e); }
    hide ExpectedEntry4, Layout, NatEntry4, ForwardingEntry4, Int32, Int16, TranslationOf;
  }

  /** What the validator accepted, as an entry. */
  lemma ValidatorYieldsEntry(wire: Bytes) returns (e: Entry)
    requires ValidateEntry4(wire).Ok?
    ensures e.Valid() && e.Encode() == Ok(wire)
  {
    var key, flowId := DecodeKey(wire[..16]), Int32(wire[36..40]);
    var flags, override := Int32(wire[16..20]), Int32(wire[20..24]);
    var mode := ModeBits(flags);
    if Entry4(wire[..16], flowId) == Ok(wire) {
      e := Entry(key, flowId, Identity);
    } else if flags == DROP {
      e := Entry(key, flowId, Drop);
    } else if mode == 0 {
      e := Entry(key, flowId, Forward(override, flags == CT + NH + TTL));
    } else {
      e := Entry(key, flowId, Nat(override, flags - mode * NAT == CT + NH + TTL, TranslationOf(wire)));
    }
    assert e.Encode() == Ok(wire);
    EncodeLayout(e);
  }

  /** The validator accepts exactly the image of the encoders. */
  lemma ValidatorAcceptsExactlyTheImage(wire: Bytes)
    ensures ValidateEntry4(wire).Ok? <==> exists e: Entry :: e.Valid() && e.Encode() == Ok(wire)
  {
    if ValidateEntry4(wire).Ok? {
      var e := ValidatorYieldsEntry(wire);
    }
    forall e: Entry | e.Valid() && e.Encode() == Ok(wire)
      ensures ValidateEntry4(wire).Ok?
    {
      ValidatorAcceptsEncodings(e);
    }
  }

  lemma TranslatedKeyBytes(e: Entry)
    requires e.Valid() && e.action.Nat?
    ensures e.Encode().Ok? && |e.Encode().value| == 64 && e.Output().Valid()
    ensures var w := e.Encode().value; w[..4] + w[56..60] + w[48..56] == e.Output().Encode()
  {
    hide Entry.Encode, Key.Encode, Entry.NatBytes, Layout, BE16, BE32;
    EncodeLayout(e);
    LayoutFields(e.key.Encode(), e.Flags(), e.Override(), e.flowId, e.NatBytes());
    KeyFields(e.key);
    KeyFields(e.Output());
    NatBytesFields(e);
    hide *;
    var w, out := e.Encode().value, e.Output().Encode();
    assert w[48..56] == w[48..60][..8] && w[56..60] == w[48..60][8..12] && w[..4] == w[..16][..4];
    assert out == out[..4] + out[4..8] + out[8..16];
  }

  /** The wire-level output tuple is the encoding of the entry's output key. */
  lemma OutputKeyAgrees(e: Entry)
    requires e.Valid()
    ensures e.Encode().Ok? && |e.Encode().value| == 64 && e.Output().Valid()
    ensures OutputKey4(e.Encode().value) == e.Output().Encode()
  {
    ReadBack(e);
    FlagFacts(e);
    if e.action.Nat? {
      TranslatedKeyBytes(e);
      hide *;
    }
  }

  // ------------------------------------------------------------ byte by byte

  /** The number that four bytes write, the most significant first. */
  predicate WordIs(w: Bytes, at: nat, n: int)
    requires at + 4 <= |w|
  {
    (w[at] as int) * 0x100_0000 + (w[at + 1] as int) * 0x1_0000 + (w[at + 2] as int) * 0x100 + w[at + 3] == n
  }

  predicate HalfIs(w: Bytes, at: nat, n: int)
    requires at + 2 <= |w|
  {
    (w[at] as int) * 0x100 + w[at + 1] == n
  }

  predicate Blank(w: Bytes, from: nat, to: nat)
    requires from <= to <= |w|
  {
    forall i :: from <= i < to ==> w[i] == 0
  }

  /** The first byte of the flags: connection tracking and next hop 0x84, decrement of the TTL 0x10, NAT of the addresses
      alone 0x20 and of ports too 0x40, or drop 0x08. */
  function FlagByte(e: Entry): int {
    match e.action
    case Identity => 0x00
    case Drop => 0x08
    case Forward(_, ttl) => if ttl then 0x94 else 0x84
    case Nat(_, ttl, to) =>
      (if ttl then 0x94 else 0x84) + if to.sport == e.key.sport && to.dport == e.key.dport then 0x20 else 0x40
  }

  lemma WordAt(w: Bytes, at: nat, n: Address)
    requires at + 4 <= |w| && w[at..at + 4] == BE32(n)
    ensures WordIs(w, at, n)
  {
    var b := w[at..at + 4];
    hide BE32;
    assert b[0] == w[at] && b[1] == w[at + 1] && b[2] == w[at + 2] && b[3] == w[at + 3] && Int32(b) == n;
  }

  lemma HalfAt(w: Bytes, at: nat, n: int)
    requires at + 2 <= |w| && 0 <= n < U16 && w[at..at + 2] == BE16(n)
    ensures HalfIs(w, at, n)
  {
    var b := w[at..at + 2];
    hide BE16;
    assert b[0] == w[at] && b[1] == w[at + 1] && Int16(b) == n;
  }

  lemma BlankAt(w: Bytes, from: nat, to: nat)
    requires from <= to <= |w| && w[from..to] == Zeros(to - from)
    ensures Blank(w, from, to)
  {
    forall i | from <= i < to
      ensures w[i] == 0
    {
      assert w[i] == w[from..to][i - from];
    }
  }

  /** A flags word has all its bits in the first byte, and a next hop fits the last two. */
  lemma ActionWords(e: Entry)
    requires e.Valid()
    ensures BE32(e.Flags()) == [FlagByte(e), 0, 0, 0] && BE32(e.Override()) == [0, 0] + BE16(e.Override())
  {
    FlagsOfByte(e);
    HighByte(FlagByte(e));
    hide BE32, BE16, Entry.Flags, FlagByte;
    LowHalf(e.Override());
  }

  lemma FlagsOfByte(e: Entry)
    ensures e.Flags() == FlagByte(e) * 0x100_0000 && 0 <= FlagByte(e) < 0x100
  {
  }

  lemma HighByte(n: int)
    requires 0 <= n < 0x100
    ensures BE32(n * 0x100_0000) == [n, 0, 0, 0]
  {
  }

  lemma LowHalf(n: int)
    requires 0 <= n < U16
    ensures BE32(n) == [0, 0] + BE16(n)
  {
  }

  lemma Tail(w: Bytes, e: Entry)
    requires e.Valid() && w == Layout(e.key.Encode(), e.Flags(), e.Override(), e.flowId, e.NatBytes())
    ensures w[..16] == e.key.Encode() && w[16..20] == BE32(e.Flags()) && w[20..24] == BE32(e.Override())
    ensures w[24..36] == Zeros(12) && w[36..40] == BE32(e.flowId) && w[40..48] == Zeros(8) && w[48..60] == e.NatBytes() && w[60..64] == Zeros(4)
  {
    LayoutFields(e.key.Encode(), e.Flags(), e.Override(), e.flowId, e.NatBytes());
    hide BE32, Entry.NatBytes, Key.Encode, Entry.Flags, Entry.Override, Entry.Valid;
  }

  lemma KeyBytes(w: Bytes, k: Key)
    requires k.Valid() && |w| == 64 && w[..16] == k.Encode()
    ensures w[0] == 0x40 && w[1] == k.protocol && HalfIs(w, 2, k.zone) && HalfIs(w, 4, k.sport) && HalfIs(w, 6, k.dport)
    ensures WordIs(w, 8, k.src) && WordIs(w, 12, k.dst)
  {
    hide BE16, BE32, Key.Encode, HalfIs, WordIs;
    KeyFields(k);
    var b := w[..16];
    assert w[0] == b[0] && w[1] == b[1];
    SliceOf(w, 0, 16, 2, 4);
    SliceOf(w, 0, 16, 4, 6);
    SliceOf(w, 0, 16, 6, 8);
    SliceOf(w, 0, 16, 8, 12);
    SliceOf(w, 0, 16, 12, 16);
    HalfAt(w, 2, k.zone);
    HalfAt(w, 4, k.sport);
    HalfAt(w, 6, k.dport);
    WordAt(w, 8, k.src);
    WordAt(w, 12, k.dst);
  }

  lemma SliceOf(w: Bytes, low: nat, high: nat, i: nat, j: nat)
    requires low <= high <= |w| && i <= j <= high - low
    ensures w[low..high][i..j] == w[low + i..low + j]
  {
    var b := w[low..high];
    forall k | 0 <= k < j - i
      ensures b[i..j][k] == w[low + i..low + j][k]
    {
      assert b[i..j][k] == b[i + k];
    }
  }

  lemma RewriteFields(a: Bytes, b: Bytes, c: Bytes, d: Bytes)
    requires |a| == |b| == 4 && |c| == |d| == 2
    ensures var w := a + b + c + d; w[..4] == a && w[4..8] == b && w[8..10] == c && w[10..12] == d
  {
  }

  lemma RewriteBytes(w: Bytes, e: Entry)
    requires e.Valid() && e.action.Nat? && |w| == 64 && w[48..60] == e.NatBytes()
    ensures WordIs(w, 48, e.action.to.source) && WordIs(w, 52, e.action.to.destination)
    ensures HalfIs(w, 56, e.action.to.sport) && HalfIs(w, 58, e.action.to.dport)
  {
    hide BE16, BE32, HalfIs, WordIs;
    var b, t := w[48..60], e.action.to;
    RewriteFields(BE32(t.source), BE32(t.destination), BE16(t.sport), BE16(t.dport));
    SliceOf(w, 48, 60, 0, 4);
    SliceOf(w, 48, 60, 4, 8);
    SliceOf(w, 48, 60, 8, 10);
    SliceOf(w, 48, 60, 10, 12);
    WordAt(w, 48, t.source);
    WordAt(w, 52, t.destination);
    HalfAt(w, 56, t.sport);
    HalfAt(w, 58, t.dport);
  }

  lemma ActionBytes(w: Bytes, e: Entry)
    requires e.Valid() && |w| == 64 && w[16..20] == BE32(e.Flags()) && w[20..24] == BE32(e.Override())
    ensures w[16] == FlagByte(e) && Blank(w, 17, 22) && HalfIs(w, 22, if e.Hop().Some? then e.Hop().value else 0)
  {
    ActionWords(e);
    hide BE16, BE32, Entry.Flags, FlagByte, HalfIs;
    var a, b := w[16..20], w[20..24];
    assert w[16] == a[0] && w[17] == a[1] && w[18] == a[2] && w[19] == a[3] && w[20] == b[0] && w[21] == b[1];
    assert w[22..24] == b[2..4] == BE16(e.Override());
    HalfAt(w, 22, e.Override());
  }

  /** Every byte of an entry on the wire. */
  lemma WireBytes(e: Entry)
    requires e.Valid()
    ensures e.Encode().Ok? && |e.Encode().value| == 64
    ensures var w := e.Encode().value;
      && w[0] == 0x40 && w[1] == e.key.protocol && HalfIs(w, 2, e.key.zone) && HalfIs(w, 4, e.key.sport) && HalfIs(w, 6, e.key.dport)
      && WordIs(w, 8, e.key.src) && WordIs(w, 12, e.key.dst)
      && w[16] == FlagByte(e) && Blank(w, 17, 22) && HalfIs(w, 22, if e.Hop().Some? then e.Hop().value else 0)
      && Blank(w, 24, 36) && WordIs(w, 36, e.flowId) && Blank(w, 40, 48)
      && (if e.action.Nat?
          then && WordIs(w, 48, e.action.to.source) && WordIs(w, 52, e.action.to.destination)
               && HalfIs(w, 56, e.action.to.sport) && HalfIs(w, 58, e.action.to.dport)
          else Blank(w, 48, 60))
      && Blank(w, 60, 64)
  {
    hide Key.Encode, BE16, BE32, HalfIs, WordIs, Blank, FlagByte, Layout, Entry.Encode, Entry.Flags;
    EncodeLayout(e);
    var w := e.Encode().value;
    Tail(w, e);
    KeyBytes(w, e.key);
    ActionBytes(w, e);
    BlankAt(w, 24, 36);
    WordAt(w, 36, e.flowId);
    BlankAt(w, 40, 48);
    if e.action.Nat? {
      RewriteBytes(w, e);
    } else {
      BlankAt(w, 48, 60);
    }
    BlankAt(w, 60, 64);
  }
}
