/** The 144-byte native flow entry and its conversion to and from the wire form. */
module NativeCodec {
  import opened Outcomes
  import opened FlowCodec

  const NATIVE_SIZE: nat := 144

  /** The bytes of a native image that carry meaning: key, state and, under NAT, the 12 IPv4 rewrite bytes.
      The hash link, the inactive rewrite storage and the IPv6 tail do not. */
  ghost predicate SameMeaning(a: Bytes, b: Bytes)
    requires |a| == NATIVE_SIZE && |b| == NATIVE_SIZE
  {
    && a[16..64] == b[16..64]
    && (ModeBits(Int32(a[32..36])) != 0 ==> a[64..76] == b[64..76])
  }

  function EncodeNative(wire: Bytes): (r: Result<Bytes>)
    ensures r.Ok? ==> |r.value| == NATIVE_SIZE
  {
    match ValidateEntry4(wire)
    case Error => Error
    case Ok(_) =>
      var rewrite := if ModeBits(Int32(wire[16..20])) != 0 then wire[56..60] + wire[48..56] else Zeros(12);
      Ok(Zeros(16) + wire[..16] + wire[16..48] + rewrite + Zeros(68))
  }

  function DecodeNative(native: Bytes, expectedKey: Bytes): Result<Bytes> {
    if |native| != NATIVE_SIZE || |expectedKey| != 16 then Error
    else if native[16..32] != expectedKey then Error
    else
      var wire := native[16..32] + native[32..64] + Zeros(16);
      var mode := ModeBits(Int32(native[32..36]));
      if mode == 3 then Error
      else if mode != 0 then ValidateEntry4(wire[..48] + native[68..76] + native[64..68] + Zeros(4))
      else ValidateEntry4(wire)
  }

  /** Where an entry's bytes are in a native image; the rest is zero. */
  lemma NativeFields(wire: Bytes)
    requires EncodeNative(wire).Ok?
    ensures |wire| == 64
    ensures var n := EncodeNative(wire).value;
      && n[16..32] == wire[..16] && n[32..64] == wire[16..48] && n[32..36] == wire[16..20]
      && n[..16] == Zeros(16) && n[76..] == Zeros(68)
      && (if ModeBits(Int32(wire[16..20])) != 0 then n[64..68] == wire[56..60] && n[68..76] == wire[48..56] else n[64..76] == Zeros(12))
  {
    hide ValidateEntry4, Int32, ModeBits;
    var n := EncodeNative(wire).value;
    assert n[32..36] == n[32..64][..4] && wire[16..20] == wire[16..48][..4];
    if ModeBits(Int32(wire[16..20])) != 0 {
      assert n[64..76] == wire[56..60] + wire[48..56];
      assert n[64..68] == n[64..76][..4] && n[68..76] == n[64..76][4..];
    }
  }

  /** A valid wire entry ends in zeros, and without NAT in sixteen of them. */
  lemma WireTail(wire: Bytes)
    requires ValidateEntry4(wire).Ok?
    ensures |wire| == 64 && wire[60..] == Zeros(4) && ModeBits(Int32(wire[16..20])) != 3
    ensures ModeBits(Int32(wire[16..20])) == 0 ==> wire[48..] == Zeros(16)
  {
    var e := ValidatorYieldsEntry(wire);
    EncodeLayout(e);
    FlagFacts(e);
    LayoutFields(e.key.Encode(), e.Flags(), e.Override(), e.flowId, e.NatBytes());
    assert wire == Layout(e.key.Encode(), e.Flags(), e.Override(), e.flowId, e.NatBytes());
    assert wire[60..] == Zeros(4);
    assert wire == wire[..48] + wire[48..60] + wire[60..];
  }

  lemma MeaningfulSlices(wire: Bytes, readback: Bytes)
    requires ValidateEntry4(wire).Ok? && |readback| == NATIVE_SIZE
    requires SameMeaning(EncodeNative(wire).value, readback)
    ensures readback[16..32] == wire[..16] && readback[32..64] == wire[16..48] && readback[32..36] == wire[16..20]
    ensures ModeBits(Int32(wire[16..20])) != 0 ==> readback[64..68] == wire[56..60] && readback[68..76] == wire[48..56]
  {
    var n := EncodeNative(wire).value;
    NativeFields(wire);
    hide ValidateEntry4, EncodeNative, Int32, ModeBits;
    assert readback[16..32] == readback[16..64][..16] == n[16..64][..16] == n[16..32];
    assert readback[32..64] == readback[16..64][16..] == n[16..64][16..] == n[32..64];
    assert readback[32..36] == readback[32..64][..4] == n[32..64][..4];
    if ModeBits(Int32(wire[16..20])) != 0 {
      assert readback[64..68] == readback[64..76][..4] == n[64..76][..4] == n[64..68];
      assert readback[68..76] == readback[64..76][4..] == n[64..76][4..] == n[68..76];
    }
  }

  lemma Reassembles(wire: Bytes)
    requires |wire| == 64
    ensures wire == wire[..16] + wire[16..48] + wire[48..]
    ensures wire == (wire[..16] + wire[16..48] + Zeros(16))[..48] + wire[48..56] + wire[56..60] + wire[60..]
  {
  }

  /** Reading back what was written yields it, whatever the device left in storage that carries no meaning. */
  lemma NativeRoundTrip(wire: Bytes, readback: Bytes)
    requires ValidateEntry4(wire).Ok? && |readback| == NATIVE_SIZE
    requires SameMeaning(EncodeNative(wire).value, readback)
    ensures DecodeNative(readback, wire[..16]) == Ok(wire)
  {
    MeaningfulSlices(wire, readback);
    WireTail(wire);
    hide ValidateEntry4, EncodeNative, SameMeaning, Int32, ModeBits;
    Reassembles(wire);
  }

  /** A native image decodes to an entry only if it carries that entry's meaning, under the key asked for. */
  lemma DecodeIsExact(native: Bytes, key: Bytes, wire: Bytes)
    requires DecodeNative(native, key) == Ok(wire)
    ensures |wire| == 64 && wire[..16] == key && ValidateEntry4(wire).Ok?
    ensures SameMeaning(EncodeNative(wire).value, native)
  {
    hide ValidateEntry4, Int32, ModeBits, Int16, BE16, BE32;
    var n := EncodeNative(wire).value;
    NativeFields(wire);
    hide EncodeNative;
    assert wire[..16] == native[16..32] && wire[16..48] == native[32..64];
    assert n[16..64] == n[16..32] + n[32..64] && native[16..64] == native[16..32] + native[32..64];
    assert wire[16..20] == wire[16..48][..4] == native[32..64][..4] == native[32..36];
    if ModeBits(Int32(wire[16..20])) != 0 {
      assert wire[48..56] == native[68..76] && wire[56..60] == native[64..68];
      assert n[64..76] == n[64..68] + n[68..76] && native[64..76] == native[64..68] + native[68..76];
    }
  }

  /** Inactive storage never changes what is read. */
  lemma DecodeIgnoresInactiveStorage(a: Bytes, b: Bytes, key: Bytes)
    requires |a| == NATIVE_SIZE && |b| == NATIVE_SIZE && SameMeaning(a, b)
    ensures DecodeNative(a, key) == DecodeNative(b, key)
  {
    hide ValidateEntry4, Int32, ModeBits;
    assert a[16..32] == a[16..64][..16] && b[16..32] == b[16..64][..16];
    assert a[32..64] == a[16..64][16..] && b[32..64] == b[16..64][16..];
    assert a[32..36] == a[32..64][..4] && b[32..36] == b[32..64][..4];
    if ModeBits(Int32(a[32..36])) != 0 {
      assert a[64..68] == a[64..76][..4] && b[64..68] == b[64..76][..4];
      assert a[68..76] == a[64..76][4..] && b[68..76] == b[64..76][4..];
    }
  }
}
