/** Paired directional entries built from a conntrack object's original and reply tuples,
    and the checks that the layers above make on such a pair. */
module NatPair {
  import opened Outcomes
  import opened FlowCodec

  datatype Conntrack = Conntrack(source: Address, destination: Address, sport: int, dport: int, protocol: int) {
    /** What the opposite direction says the packet must look like on the way out. */
    function Answered(): Translation {
      Translation(destination, source, dport, sport)
    }
    function Tuple(): Translation {
      Translation(source, destination, sport, dport)
    }
  }

  function Direction4(flowId: int, row: Conntrack, peer: Conntrack, hop: int, zone: int): Result<Bytes> {
    match Key4(row.source, row.destination, row.sport, row.dport, row.protocol, zone)
    case Error => Error
    case Ok(key) =>
      if peer.Answered() == row.Tuple() then ForwardingEntry4(key, flowId, Some(hop), false, true)
      else NatEntry4(key, flowId, hop, peer.Answered(), true)
  }

  function SessionPair4(sid: int, original: Conntrack, reply: Conntrack, zones: seq<int>, hops: seq<int>): (r: Result<seq<Bytes>>)
    ensures r.Ok? ==> |r.value| == 2
  {
    if original.protocol != reply.protocol || |hops| != 2 || |zones| != 2 then Error
    else if !Uint(zones[0], U16) || !Uint(zones[1], U16) || !Uint(sid, 0x8000_0000) then Error
    else
      match Direction4(sid * 2, original, reply, hops[0], zones[0])
      case Error => Error
      case Ok(forward) =>
        match Direction4(sid * 2 + 1, reply, original, hops[1], zones[1])
        case Error => Error
        case Ok(backward) => Ok([forward, backward])
  }

  /** Rewrites the flow ID placeholder of a validated entry. */
  function WithFlowId(wire: Bytes, id: int): Bytes
    requires |wire| == 64 && Uint(id, U32)
  {
    wire[..36] + BE32(id) + wire[40..]
  }

  /** Replaces both placeholders by a reserved pair of IDs. */
  function AssignPair(entries: seq<Bytes>, ids: (int, int)): Result<seq<Bytes>> {
    if |entries| != 2 || ValidateEntry4(entries[0]).Error? || ValidateEntry4(entries[1]).Error? then Error
    else if ids.0 == ids.1 || !Uint(ids.0, U32) || !Uint(ids.1, U32) || ids.0 == 0 || ids.1 == 0 then Error
    else Ok([WithFlowId(entries[0], ids.0), WithFlowId(entries[1], ids.1)])
  }

  // ------------------------------------------------------ the checks made above

  predicate ReversedTuple(a: Bytes, b: Bytes)
    requires |a| == 16 && |b| == 16
  {
    a[..2] == b[..2] && a[4..6] == b[6..8] && a[6..8] == b[4..6] && a[8..12] == b[12..16] && a[12..16] == b[8..12]
  }

  /** The session manager's checks on the two directional entries of an install. */
  predicate InstallAccepts(entries: seq<Bytes>, lookupZones: Option<seq<int>>) {
    && |entries| == 2 && |entries[0]| == 64 && |entries[1]| == 64
    && entries[0][..16] != entries[1][..16]
    && ValidateEntry4(entries[0]).Ok? && ValidateEntry4(entries[1]).Ok?
    && var zones := [Int16(entries[0][2..4]), Int16(entries[1][2..4])];
    && (if lookupZones.None? then zones[0] == zones[1] else lookupZones.value == zones)
    && ReversedTuple(OutputKey4(entries[0]), entries[1][..16])
    && ReversedTuple(OutputKey4(entries[1]), entries[0][..16])
  }

  /** Addresses and ports of a key, in conntrack order. */
  function FlowTuple(key: Bytes): Translation
    requires |key| >= 16
  {
    Translation(Int32(key[8..12]), Int32(key[12..16]), Int16(key[4..6]), Int16(key[6..8]))
  }

  function Reversed(t: Translation): Translation {
    Translation(t.destination, t.source, t.dport, t.sport)
  }

  /** The accounting session's check against the conntrack object its lease is bound to. */
  predicate AccountingAccepts(entries: seq<Bytes>, protocol: int, original: Translation, reply: Translation) {
    && |entries| == 2 && ValidateEntry4(entries[0]).Ok? && ValidateEntry4(entries[1]).Ok?
    && entries[0][1] == entries[1][1] == protocol
    && Int32(entries[0][36..40]) != Int32(entries[1][36..40])
    && FlowTuple(entries[0]) == original && FlowTuple(entries[1]) == reply
    && FlowTuple(OutputKey4(entries[0])) == Reversed(reply)
    && FlowTuple(OutputKey4(entries[1])) == Reversed(original)
  }

  /** The install check on entries rather than bytes. */
  predicate Paired(a: Entry, b: Entry) {
    a.key != b.key && a.Output().Reverses(b.key) && b.Output().Reverses(a.key)
  }

  /** The accounting check on entries rather than bytes: they are the two directions of the connection. */
  predicate Matches(a: Entry, b: Entry, protocol: int, original: Translation, reply: Translation) {
    && a.key.protocol == b.key.protocol == protocol && a.flowId != b.flowId
    && a.key.Tuple() == original && b.key.Tuple() == reply
    && a.Output().Tuple() == Reversed(reply) && b.Output().Tuple() == Reversed(original)
  }

  // ------------------------------------------------------------------- proofs

  lemma ReversedTupleIsReverses(a: Key, b: Key)
    requires a.Valid() && b.Valid()
    ensures ReversedTuple(a.Encode(), b.Encode()) <==> a.Reverses(b)
  {
    KeyFields(a);
    KeyFields(b);
    assert a.Encode()[..2] == [0x40, a.protocol] && b.Encode()[..2] == [0x40, b.protocol];
    hide Key.Encode, BE16, BE32;
  }

  lemma InstallCheckIsPaired(a: Entry, b: Entry, zones: Option<seq<int>>)
    requires a.Valid() && b.Valid()
    ensures a.Encode().Ok? && b.Encode().Ok?
    ensures InstallAccepts([a.Encode().value, b.Encode().value], zones)
            <==> Paired(a, b) && (if zones.None? then a.key.zone == b.key.zone else zones.value == [a.key.zone, b.key.zone])
  {
    hide Entry.Encode, Key.Encode, ValidateEntry4, ReversedTuple, Key.Reverses, OutputKey4, Int16, Int32, Entry.Valid, Key.Valid, Entry.Output;
    WireFacts(a);
    WireFacts(b);
    ReversedTupleIsReverses(a.Output(), b.key);
    ReversedTupleIsReverses(b.Output(), a.key);
    if a.key.Encode() == b.key.Encode() { KeyInjective(a.key, b.key); }
  }

  /** What the checks read out of an encoded entry. */
  lemma WireFacts(e: Entry)
    requires e.Valid()
    ensures e.key.Valid() && e.Output().Valid() && e.Encode().Ok? && |e.Encode().value| == 64
    ensures var w := e.Encode().value;
      && w[..16] == e.key.Encode() && Int16(w[2..4]) == e.key.zone && w[1] == e.key.protocol && Int32(w[36..40]) == e.flowId
      && ValidateEntry4(w).Ok? && OutputKey4(w) == e.Output().Encode()
  {
    ReadBack(e);
    OutputKeyAgrees(e);
    ValidatorAcceptsEncodings(e);
    KeyFields(e.key);
    var w := e.Encode().value;
    assert w[2..4] == w[..16][2..4] && w[1] == w[..16][1];
    hide Entry.Encode, Key.Encode, ValidateEntry4, OutputKey4, Int32, Entry.Valid, Entry.Output;
  }

  /** The entry a direction stands for. */
  function DirectionEntry(flowId: int, row: Conntrack, peer: Conntrack, hop: int, zone: int): Entry {
    var key := Key(row.protocol, zone, row.sport, row.dport, row.source, row.destination);
    Entry(key, flowId, if peer.Answered() == row.Tuple() then Forward(hop, true) else Nat(hop, true, peer.Answered()))
  }

  lemma AssignedIsEncoding(e: Entry, id: int)
    requires e.Valid() && Uint(id, U32)
    ensures e.Encode().Ok? && |e.Encode().value| == 64
    ensures e.(flowId := id).Valid()
    ensures Ok(WithFlowId(e.Encode().value, id)) == e.(flowId := id).Encode()
  {
    var f := e.(flowId := id);
    EncodeLayout(e);
    EncodeLayout(f);
    assert e.Flags() == f.Flags() && e.Override() == f.Override() && e.NatBytes() == f.NatBytes();
    RelabelLayout(e.key.Encode(), e.Flags(), e.Override(), e.flowId, id, e.NatBytes());
    hide Entry.Encode, Layout, WithFlowId, Entry.NatBytes, Entry.Flags, Entry.Valid;
  }

  lemma RelabelLayout(key: Bytes, flags: int, override: int, flowId: int, id: int, rewrite: Bytes)
    requires |key| == 16 && |rewrite| == 12
    requires Uint(flags, U32) && Uint(override, U32) && Uint(flowId, U32) && Uint(id, U32)
    ensures WithFlowId(Layout(key, flags, override, flowId, rewrite), id) == Layout(key, flags, override, id, rewrite)
  {
  }

  lemma FlowTupleOfKey(k: Key)
    requires k.Valid()
    ensures FlowTuple(k.Encode()) == k.Tuple()
  {
  }

  lemma AccountingCheckIsMatches(a: Entry, b: Entry, protocol: int, original: Translation, reply: Translation)
    requires a.Valid() && b.Valid()
    ensures a.Encode().Ok? && b.Encode().Ok?
    ensures AccountingAccepts([a.Encode().value, b.Encode().value], protocol, original, reply) <==> Matches(a, b, protocol, original, reply)
  {
    hide Entry.Encode, Key.Encode, ValidateEntry4, OutputKey4, Int16, Int32, FlowTuple, Entry.Valid, Key.Valid, Key.Tuple, Entry.Output;
    WireFacts(a);
    WireFacts(b);
    FlowTupleOfKey(a.key);
    FlowTupleOfKey(b.key);
    FlowTupleOfKey(a.Output());
    FlowTupleOfKey(b.Output());
    FlowTuplePrefix(a.Encode().value);
    FlowTuplePrefix(b.Encode().value);
  }

  lemma FlowTuplePrefix(w: Bytes)
    requires |w| == 64
    ensures FlowTuple(w) == FlowTuple(w[..16])
  {
    assert w[8..12] == w[..16][8..12] && w[12..16] == w[..16][12..16];
    assert w[4..6] == w[..16][4..6] && w[6..8] == w[..16][6..8];
  }

  /** The directions of an accepted pair as entries. */
  function PairEntries(sid: int, original: Conntrack, reply: Conntrack, zones: seq<int>, hops: seq<int>): (Entry, Entry)
    requires |zones| == 2 && |hops| == 2
  {
    (DirectionEntry(sid * 2, original, reply, hops[0], zones[0]), DirectionEntry(sid * 2 + 1, reply, original, hops[1], zones[1]))
  }

  lemma PairIsEncoding(sid: int, original: Conntrack, reply: Conntrack, zones: seq<int>, hops: seq<int>)
    requires SessionPair4(sid, original, reply, zones, hops).Ok?
    ensures |zones| == 2 && |hops| == 2
    ensures var (a, b) := PairEntries(sid, original, reply, zones, hops);
      && a.Valid() && b.Valid() && a.Encode().Ok? && b.Encode().Ok?
      && SessionPair4(sid, original, reply, zones, hops).value == [a.Encode().value, b.Encode().value]
      && a.Output().Reverses(b.key) && b.Output().Reverses(a.key)
      && (a.key == b.key <==> original.Tuple() == reply.Tuple() && zones[0] == zones[1])
  {
  }

  lemma LabelledPair(sid: int, original: Conntrack, reply: Conntrack, zones: seq<int>, hops: seq<int>, ids: (int, int))
    requires SessionPair4(sid, original, reply, zones, hops).Ok?
    requires ids.0 != ids.1 && 0 < ids.0 < U32 && 0 < ids.1 < U32
    ensures |zones| == 2 && |hops| == 2
    ensures var (a, b) := PairEntries(sid, original, reply, zones, hops);
      var x, y := a.(flowId := ids.0), b.(flowId := ids.1);
      && x.Valid() && y.Valid() && x.Encode().Ok? && y.Encode().Ok?
      && AssignPair(SessionPair4(sid, original, reply, zones, hops).value, ids) == Ok([x.Encode().value, y.Encode().value])
  {
    PairIsEncoding(sid, original, reply, zones, hops);
    var (a, b) := PairEntries(sid, original, reply, zones, hops);
    ValidatorAcceptsEncodings(a);
    ValidatorAcceptsEncodings(b);
    AssignedIsEncoding(a, ids.0);
    AssignedIsEncoding(b, ids.1);
    hide *;
    hide Entry.Encode, Entry.Valid, Key.Valid, WithFlowId;
  }

  lemma PairFacts(sid: int, original: Conntrack, reply: Conntrack, zones: seq<int>, hops: seq<int>)
    requires |zones| == 2 && |hops| == 2
    ensures var (a, b) := PairEntries(sid, original, reply, zones, hops);
      && a.Flags() == b.Flags() && (a.Translates() <==> reply.Answered() != original.Tuple())
      && zones == [a.key.zone, b.key.zone] && a.key.protocol == original.protocol && b.key.protocol == reply.protocol
      && a.key.Tuple() == original.Tuple()
      && b.key.Tuple() == reply.Tuple()
  {
  }

  /** The pair that reaches the session manager: accepted by the encoder, then given durable flow IDs. */
  function Labelled(sid: int, original: Conntrack, reply: Conntrack, zones: seq<int>, hops: seq<int>, ids: (int, int)): Result<seq<Bytes>> {
    match SessionPair4(sid, original, reply, zones, hops)
    case Error => Error
    case Ok(pair) => AssignPair(pair, ids)
  }

  lemma LabelledNeeds(sid: int, original: Conntrack, reply: Conntrack, zones: seq<int>, hops: seq<int>, ids: (int, int))
    requires Labelled(sid, original, reply, zones, hops, ids).Ok?
    ensures SessionPair4(sid, original, reply, zones, hops).Ok? && original.protocol == reply.protocol
    ensures ids.0 != ids.1 && 0 < ids.0 < U32 && 0 < ids.1 < U32
  {
    hide Direction4, ValidateEntry4, WithFlowId;
  }

  lemma LabelledEntries(sid: int, original: Conntrack, reply: Conntrack, zones: seq<int>, hops: seq<int>, ids: (int, int))
      returns (x: Entry, y: Entry)
    requires Labelled(sid, original, reply, zones, hops, ids).Ok?
    ensures |zones| == 2 && zones == [x.key.zone, y.key.zone]
    ensures x.Valid() && y.Valid() && x.Encode().Ok? && y.Encode().Ok? && x.flowId != y.flowId
    ensures Labelled(sid, original, reply, zones, hops, ids) == Ok([x.Encode().value, y.Encode().value])
    ensures x.Output().Reverses(y.key) && y.Output().Reverses(x.key)
    ensures x.key == y.key <==> original.Tuple() == reply.Tuple() && zones[0] == zones[1]
    ensures x.Flags() == y.Flags() && (x.Translates() <==> reply.Answered() != original.Tuple())
    ensures x.key.protocol == y.key.protocol == original.protocol
    ensures x.key.Tuple() == original.Tuple()
    ensures y.key.Tuple() == reply.Tuple()
  {
    LabelledNeeds(sid, original, reply, zones, hops, ids);
    hide SessionPair4, AssignPair, Entry.Encode, Entry.Valid, Key.Valid, Key.Encode, WithFlowId, ValidateEntry4, Key.Reverses;
    hide Entry.Flags, Entry.Output, DirectionEntry, PairEntries;
    LabelledPair(sid, original, reply, zones, hops, ids);
    PairIsEncoding(sid, original, reply, zones, hops);
    PairFacts(sid, original, reply, zones, hops);
    var (a, b) := PairEntries(sid, original, reply, zones, hops);
    x, y := a.(flowId := ids.0), b.(flowId := ids.1);
    Relabelled(a, ids.0);
    Relabelled(b, ids.1);
  }

  lemma Relabelled(e: Entry, id: int)
    ensures var f := e.(flowId := id); f.Output() == e.Output() && f.Flags() == e.Flags()
  {
  }

  /** In the commissioned zones the install check passes exactly when the two ingress keys differ. */
  lemma PairInstallsUnlessKeysCoincide(sid: int, original: Conntrack, reply: Conntrack, zones: seq<int>, hops: seq<int>, ids: (int, int))
    requires Labelled(sid, original, reply, zones, hops, ids).Ok?
    ensures |zones| == 2
    ensures InstallAccepts(Labelled(sid, original, reply, zones, hops, ids).value, Some(zones))
            <==> !(original.Tuple() == reply.Tuple() && zones[0] == zones[1])
  {
    var x, y := LabelledEntries(sid, original, reply, zones, hops, ids);
    hide Labelled, Entry.Encode, Entry.Valid, InstallAccepts, Key.Reverses, Entry.Output;
    InstallCheckIsPaired(x, y, Some(zones));
  }

  /** The accounting check against the conntrack object always passes. */
  lemma PairSatisfiesAccounting(sid: int, original: Conntrack, reply: Conntrack, zones: seq<int>, hops: seq<int>, ids: (int, int))
    requires Labelled(sid, original, reply, zones, hops, ids).Ok?
    ensures AccountingAccepts(Labelled(sid, original, reply, zones, hops, ids).value, original.protocol, original.Tuple(), reply.Tuple())
  {
    var x, y := LabelledEntries(sid, original, reply, zones, hops, ids);
    hide Labelled, Entry.Encode, Entry.Valid, AccountingAccepts, Entry.Output;
    AccountingCheckIsMatches(x, y, original.protocol, original.Tuple(), reply.Tuple());
  }

  /** Both directions translate or neither does, in the same NAT mode, exactly when conntrack translated. */
  lemma PairTranslatesTogether(sid: int, original: Conntrack, reply: Conntrack, zones: seq<int>, hops: seq<int>, ids: (int, int))
    requires Labelled(sid, original, reply, zones, hops, ids).Ok?
    ensures var w := Labelled(sid, original, reply, zones, hops, ids).value;
      && |w| == 2 && |w[0]| == 64 && |w[1]| == 64
      && ModeBits(Int32(w[0][16..20])) == ModeBits(Int32(w[1][16..20]))
      && (ModeBits(Int32(w[0][16..20])) != 0 <==> reply.Answered() != original.Tuple())
  {
    var x, y := LabelledEntries(sid, original, reply, zones, hops, ids);
    hide Labelled, Entry.Encode, Entry.Valid, Key.Encode, Entry.Flags, Int32, ModeBits;
    ReadBack(x);
    ReadBack(y);
    FlagFacts(x);
  }

  /** Labelling fails on an accepted pair only when the allocator's two IDs are unusable. */
  lemma LabellingNeedsTwoIds(sid: int, original: Conntrack, reply: Conntrack, zones: seq<int>, hops: seq<int>, ids: (int, int))
    requires SessionPair4(sid, original, reply, zones, hops).Ok?
    ensures Labelled(sid, original, reply, zones, hops, ids).Ok?
            <==> ids.0 != ids.1 && 0 < ids.0 < U32 && 0 < ids.1 < U32
  {
    if ids.0 != ids.1 && 0 < ids.0 < U32 && 0 < ids.1 < U32 {
      LabelledPair(sid, original, reply, zones, hops, ids);
    }
    hide SessionPair4, ValidateEntry4;
  }

  /** A pair the encoder accepts and the manager refuses: both directions arrive under one key. */
  lemma EqualKeysAreRefused()
    ensures exists t: Conntrack ::
              && SessionPair4(1, t, t, [7, 7], [1, 2]).Ok?
              && forall zones :: !InstallAccepts(SessionPair4(1, t, t, [7, 7], [1, 2]).value, zones)
  {
    var t := Conntrack(0x0A00_0001, 0x0A00_0002, 5, 6, 17);
    var key := Key(17, 7, 5, 6, 0x0A00_0001, 0x0A00_0002);
    var a := DirectionEntry(2, t, t, 1, 7);
    var b := DirectionEntry(3, t, t, 2, 7);
    EncodeLayout(a);
    EncodeLayout(b);
    assert Direction4(2, t, t, 1, 7) == a.Encode();
    assert Direction4(3, t, t, 2, 7) == b.Encode();
    forall zones ensures !InstallAccepts(SessionPair4(1, t, t, [7, 7], [1, 2]).value, zones) {
      InstallCheckIsPaired(a, b, zones);
    }
  }
}
