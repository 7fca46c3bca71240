/** The CRC-protected u-boot environment block: printer, parser and their round trip. */
module UbootEnv {
  import opened Outcomes
  import opened FlowCodec

  type Pairs = seq<(string, string)>
  type Checksum = Bytes -> Address      // CRC-32; nothing about it is used but that it is a function

  const EQUALS: byte := 61

  // ----------------------------------------------------------------- characters

  function Utf8(c: char): (b: Bytes)
    ensures b != [] && (c as int < 128 <==> b == [c as int])
    ensures c as int >= 128 ==> |b| > 1 && forall i :: 0 <= i < |b| ==> b[i] >= 128
  {
    var n := c as int;
    if n < 0x80 then [n]
    else if n < 0x800 then [0xC0 + n / 0x40, 0x80 + n % 0x40]
    else if n < 0x1_0000 then [0xE0 + n / 0x1000, 0x80 + n / 0x40 % 0x40, 0x80 + n % 0x40]
    else [0xF0 + n / 0x4_0000, 0x80 + n / 0x1000 % 0x40, 0x80 + n / 0x40 % 0x40, 0x80 + n % 0x40]
  }

  /** The bits of a character, six to a continuation byte, under the mark of how many bytes there are. */
  lemma Utf8Bits(c: char)
    ensures var b, n := Utf8(c), c as int;
      && |b| == (if n < 0x80 then 1 else if n < 0x800 then 2 else if n < 0x1_0000 then 3 else 4)
      && (forall i :: 1 <= i < |b| ==> 0x80 <= b[i] < 0xC0)
      && var mark := if |b| == 1 then 0 else if |b| == 2 then 0xC0 else if |b| == 3 then 0xE0 else 0xF0;
      && mark <= b[0] && Bits(b[0] as int - mark, b[1..]) == n
  {
    hide Bits;
    var b, n := Utf8(c), c as int;
    if n < 0x80 {
      assert b[1..] == [];
      NoBits(n);
    } else if n < 0x800 {
      assert b[1..] == [0x80 + n % 0x40] + [];
      OneMore(n, []);
      NoBits(n);
    } else if n < 0x1_0000 {
      assert b[1..] == [0x80 + n / 0x40 % 0x40] + [0x80 + n % 0x40];
      assert [0x80 + n % 0x40] + [] == [0x80 + n % 0x40] && n / 0x40 / 0x40 == n / 0x1000;
      OneMore(n / 0x40, [0x80 + n % 0x40]);
      OneMore(n, []);
      NoBits(n);
    } else {
      assert b[1..] == [0x80 + n / 0x1000 % 0x40] + [0x80 + n / 0x40 % 0x40, 0x80 + n % 0x40];
      OneMore(n / 0x1000, [0x80 + n / 0x40 % 0x40, 0x80 + n % 0x40]);
      assert [0x80 + n / 0x40 % 0x40, 0x80 + n % 0x40] == [0x80 + n / 0x40 % 0x40] + [0x80 + n % 0x40];
      assert [0x80 + n % 0x40] + [] == [0x80 + n % 0x40] && n / 0x40 / 0x40 == n / 0x1000 && n / 0x1000 / 0x40 == n / 0x4_0000;
      OneMore(n / 0x40, [0x80 + n % 0x40]);
      OneMore(n, []);
      NoBits(n);
    }
  }

  lemma NoBits(n: int)
    ensures Bits(n, []) == n
  {
  }

  lemma OneMore(n: nat, rest: Bytes)
    ensures Bits(n / 0x40, [0x80 + n % 0x40] + rest) == Bits(n, rest)
  {
    BitsNext(n / 0x40, 0x80 + n % 0x40, rest);
    hide Bits;
    assert n / 0x40 * 0x40 + n % 0x40 == n;
  }

  lemma BitsNext(head: int, b: byte, rest: Bytes)
    ensures Bits(head, [b] + rest) == Bits(head * 0x40 + (b as int - 0x80), rest)
  {
    assert ([b] + rest)[1..] == rest;
  }

  function Bits(head: int, rest: Bytes): int
    decreases |rest|
  {
    if rest == [] then head else Bits(head * 0x40 + (rest[0] as int - 0x80), rest[1..])
  }

  function Encode(s: string): Bytes {
    if s == [] then [] else Utf8(s[0]) + Encode(s[1..])
  }

  /** ASCII decoding that puts a replacement character for every byte it cannot read. */
  function Decode(b: Bytes): (s: string)
    ensures |s| == |b|
  {
    seq(|b|, i requires 0 <= i < |b| => if b[i] < 128 then b[i] as char else 0xFFFD as char)
  }

  predicate Ascii(s: string) {
    forall i :: 0 <= i < |s| ==> s[i] as int < 128
  }

  /** A code unit below 128 appears in an encoding only if that character is in the text. */
  lemma {:induction false} EncodeAvoids(s: string, b: byte)
    requires b < 128 && forall i :: 0 <= i < |s| ==> s[i] as int != b
    ensures forall i :: 0 <= i < |Encode(s)| ==> Encode(s)[i] != b
  {
    if s == [] {
      assert Encode(s) == [];
    } else {
      EncodeAvoids(s[1..], b);
      var head := Utf8(s[0]);
      hide Utf8;
      assert forall i :: 0 <= i < |head| ==> head[i] != b;
    }
  }

  /** Encoding lengthens exactly the texts that are not ASCII. */
  lemma {:induction false} EncodeLength(s: string)
    ensures |Encode(s)| >= |s| && (|Encode(s)| == |s| <==> Ascii(s))
    ensures !Ascii(s) ==> exists i :: 0 <= i < |Encode(s)| && Encode(s)[i] >= 128
  {
    if s == [] {
      assert Encode(s) == [];
    } else {
      EncodeLength(s[1..]);
      var head, tail := Utf8(s[0]), Encode(s[1..]);
      hide Utf8, Encode;
      assert forall i :: 0 <= i < |s| - 1 ==> s[1..][i] == s[i + 1];
      assert Ascii(s) <==> s[0] as int < 128 && Ascii(s[1..]) by {
        if s[0] as int < 128 && Ascii(s[1..]) {
          forall i | 0 <= i < |s|
            ensures s[i] as int < 128
          {
            if i > 0 { assert s[i] == s[1..][i - 1]; }
          }
        }
      }
      if !Ascii(s) {
        if s[0] as int >= 128 {
          assert (head + tail)[0] >= 128;
        } else {
          var i :| 0 <= i < |tail| && tail[i] >= 128;
          assert (head + tail)[|head| + i] >= 128;
        }
      }
    }
  }

  lemma {:induction false} DecodeEncode(s: string)
    ensures Ascii(s) ==> Decode(Encode(s)) == s
  {
    if s == [] {
      assert Decode(Encode(s)) == [];
    } else if Ascii(s) {
      assert forall i :: 0 <= i < |s| - 1 ==> s[1..][i] == s[i + 1];
      DecodeEncode(s[1..]);
      assert Encode(s) == [s[0] as int] + Encode(s[1..]);
      EncodeLength(s[1..]);
      assert Decode(Encode(s)) == [s[0]] + Decode(Encode(s[1..]));
    }
  }

  // ----------------------------------------------------------------- the format

  predicate Legal(p: (string, string)) {
    '=' !in p.0 && '\0' !in p.0 && '\0' !in p.1
  }

  predicate AllLegal(pairs: Pairs) {
    forall i :: 0 <= i < |pairs| ==> Legal(pairs[i])
  }

  function Entry(p: (string, string)): Bytes {
    Encode(p.0) + [EQUALS] + Encode(p.1)
  }

  function Body(pairs: Pairs): Bytes {
    if pairs == [] then [] else Entry(pairs[0]) + ([0] + Body(pairs[1..]))
  }

  function Pack(n: Address, big: bool): (b: Bytes)
    ensures |b| == 4 && Unpack(b, big) == n
  {
    var b := BE32(n);
    var r := if big then b else [b[3], b[2], b[1], b[0]];
    assert !big ==> [r[3], r[2], r[1], r[0]] == b;
    r
  }

  function Unpack(b: Bytes, big: bool): Address
    requires |b| == 4
  {
    if big then Int32(b) else Int32([b[3], b[2], b[1], b[0]])
  }

  /** The first four bytes write this number, the most significant byte first or last. */
  predicate Stored(b: Bytes, n: int, big: bool)
    requires |b| >= 4
  {
    if big then (b[0] as int) * 0x100_0000 + (b[1] as int) * 0x1_0000 + (b[2] as int) * 0x100 + b[3] == n
    else (b[3] as int) * 0x100_0000 + (b[2] as int) * 0x1_0000 + (b[1] as int) * 0x100 + b[0] == n
  }

  lemma UnpackReads(b: Bytes, big: bool)
    requires |b| >= 4
    ensures forall n :: Unpack(b[..4], big) == n <==> Stored(b, n, big)
  {
  }

  /** Where the first `b` is, or the end. */
  function Find(data: Bytes, b: byte): (i: nat)
    ensures i <= |data| && (i < |data| ==> data[i] == b) && forall j :: 0 <= j < i ==> data[j] != b
  {
    if data == [] || data[0] == b then 0 else 1 + Find(data[1..], b)
  }

  lemma FindUnique(data: Bytes, b: byte, i: nat)
    requires i < |data| && data[i] == b && forall j :: 0 <= j < i ==> data[j] != b
    ensures Find(data, b) == i
  {
  }

  /** The entries up to the first empty one. */
  function Scan(data: Bytes): seq<Bytes>
    decreases |data|
  {
    var n := Find(data, 0);
    if n == 0 then [] else if n == |data| then [data] else [data[..n]] + Scan(data[n + 1..])
  }

  function Partition(entry: Bytes): (string, string) {
    var n := Find(entry, EQUALS);
    (Decode(entry[..n]), Decode(if n == |entry| then [] else entry[n + 1..]))
  }

  /** A later pair with the same key replaces an earlier one. */
  function Assoc(pairs: Pairs): map<string, string> {
    if pairs == [] then map[] else Assoc(pairs[..|pairs| - 1])[pairs[|pairs| - 1].0 := pairs[|pairs| - 1].1]
  }

  function Parsed(entries: seq<Bytes>): (ps: Pairs)
    ensures |ps| == |entries|
  {
    seq(|entries|, i requires 0 <= i < |entries| => Partition(entries[i]))
  }

  function Data(pairs: Pairs, size: int): (d: Bytes)
    requires |Body(pairs)| + 5 <= size
    ensures |d| == size - 4
  {
    Body(pairs) + Zeros(size - 4 - |Body(pairs)|)
  }

  // -------------------------------------------------------- printer and parser

  lemma Reassociate(a: Bytes, b: Bytes, c: Bytes)
    ensures a + ([0] + (b + c + [0])) == (a + ([0] + b)) + c + [0]
  {
  }

  lemma {:induction false} BodyNext(pairs: Pairs, p: (string, string))
    ensures Body(pairs + [p]) == Body(pairs) + Entry(p) + [0]
  {
    hide Entry;
    var all := pairs + [p];
    if pairs == [] {
      assert Body(all[1..]) == [];
    } else {
      assert all[1..] == pairs[1..] + [p] && all[0] == pairs[0];
      BodyNext(pairs[1..], p);
      var tail, rest := Body(pairs[1..]), Body(all[1..]);
      assert Body(all) == Entry(pairs[0]) + ([0] + rest) && Body(pairs) == Entry(pairs[0]) + ([0] + tail);
      hide Body;
      Reassociate(Entry(pairs[0]), tail, Entry(p));
    }
  }

  method Build(pairs: Pairs, size: int, big: bool, crc: Checksum) returns (r: Result<Bytes>)
    ensures r.Ok? <==> AllLegal(pairs) && |Body(pairs)| + 5 <= size
    ensures r.Ok? ==> r.value == Pack(crc(Data(pairs, size)), big) + Data(pairs, size)
    ensures r.Ok? ==> |r.value| == size && r.value[4..] == Data(pairs, size) && Stored(r.value, crc(r.value[4..]), big)
  {
    hide Legal, Entry, Body, Pack, Stored, Unpack;
    var body: Bytes := [];
    assert Body(pairs[..0]) == [] by { EmptyBody(); assert pairs[..0] == []; }
    for i := 0 to |pairs|
      invariant body == Body(pairs[..i]) && AllLegal(pairs[..i])
    {
      if !Legal(pairs[i]) {
        return Error;
      }
      BodyNext(pairs[..i], pairs[i]);
      assert pairs[..i] + [pairs[i]] == pairs[..i + 1];
      body := body + Entry(pairs[i]) + [0];
    }
    assert pairs[..|pairs|] == pairs;
    if |body| + 1 + 4 > size {
      return Error;
    }
    var data := body + [0] + Zeros(size - 5 - |body|);
    assert data == Data(pairs, size);
    var block := Pack(crc(data), big) + data;
    assert block[4..] == data && block[..4] == Pack(crc(data), big);
    UnpackReads(block, big);
    return Ok(block);
  }

  lemma EmptyBody()
    ensures Body([]) == []
  {
  }

  /** The loop over the entries of a block. */
  method Collect(data: Bytes) returns (out: map<string, string>)
    ensures out == Assoc(Parsed(Scan(data)))
  {
    hide *;
    NothingParsed();
    out := map[];
    var rest := data;
    ghost var done: seq<Bytes> := [];
    while true
      invariant Scan(data) == done + Scan(rest) && out == Assoc(Parsed(done))
      decreases |rest|
    {
      var n := Find(rest, 0);
      ScanStep(rest);
      if n == 0 {
        assert done + Scan(rest) == done;
        break;
      }
      var entry, next := rest[..n], if n == |rest| then [] else rest[n + 1..];
      Shift(done, entry, Scan(next));
      AssocNext(done, entry);
      out := out[Partition(entry).0 := Partition(entry).1];
      done, rest := done + [entry], next;
    }
  }

  lemma Shift(a: seq<Bytes>, e: Bytes, b: seq<Bytes>)
    ensures a + ([e] + b) == a + [e] + b
  {
  }

  method Parse(blob: Bytes, big: bool, crc: Checksum) returns (ok: bool, out: map<string, string>)
    ensures |blob| < 5 ==> !ok && out == map[]
    ensures |blob| >= 5 ==> (ok <==> crc(blob[4..]) == Unpack(blob[..4], big)) && out == Assoc(Parsed(Scan(blob[4..])))
    ensures |blob| >= 5 ==> (ok <==> Stored(blob, crc(blob[4..]), big))
  {
    hide Unpack, Stored;
    if |blob| < 5 {
      return false, map[];
    }
    UnpackReads(blob, big);
    ok := crc(blob[4..]) == Unpack(blob[..4], big);
    out := Collect(blob[4..]);
  }

  lemma NothingParsed()
    ensures Assoc(Parsed([])) == map[]
  {
  }

  lemma ScanStep(data: Bytes)
    ensures var n := Find(data, 0);
      Scan(data) == if n == 0 then [] else [data[..n]] + Scan(if n == |data| then [] else data[n + 1..])
  {
    assert data[..|data|] == data;
  }

  lemma AssocNext(entries: seq<Bytes>, e: Bytes)
    ensures Assoc(Parsed(entries + [e])) == Assoc(Parsed(entries))[Partition(e).0 := Partition(e).1]
  {
    hide Partition;
    var ps := Parsed(entries + [e]);
    assert ps[..|entries|] == Parsed(entries);
  }

  // -------------------------------------------------------------- round trip

  /** What becomes of a pair in a block and back. */
  function Mangled(pairs: Pairs): (ps: Pairs)
    ensures |ps| == |pairs|
  {
    seq(|pairs|, i requires 0 <= i < |pairs| => (Decode(Encode(pairs[i].0)), Decode(Encode(pairs[i].1))))
  }

  lemma EntryIsPlain(p: (string, string))
    requires Legal(p)
    ensures Entry(p) != [] && forall i :: 0 <= i < |Entry(p)| ==> Entry(p)[i] != 0
    ensures Partition(Entry(p)) == (Decode(Encode(p.0)), Decode(Encode(p.1)))
  {
    EncodeAvoids(p.0, 0);
    EncodeAvoids(p.1, 0);
    EncodeAvoids(p.0, EQUALS);
    hide Encode, Decode;
    var e := Entry(p);
    FindUnique(e, EQUALS, |Encode(p.0)|);
    assert e[..|Encode(p.0)|] == Encode(p.0) && e[|Encode(p.0)| + 1..] == Encode(p.1);
  }

  lemma ScanOne(e: Bytes, rest: Bytes)
    requires e != [] && forall i :: 0 <= i < |e| ==> e[i] != 0
    ensures Scan(e + ([0] + rest)) == [e] + Scan(rest)
  {
    var data := e + ([0] + rest);
    FindUnique(data, 0, |e|);
    assert data[..|e|] == e && data[|e| + 1..] == rest;
  }

  /** Scanning a padded body yields its entries, and they partition into the mangled pairs. */
  lemma {:induction false} ScanBody(pairs: Pairs, n: nat)
    requires AllLegal(pairs) && n > 0
    ensures Parsed(Scan(Body(pairs) + Zeros(n))) == Mangled(pairs)
    decreases |pairs|
  {
    hide Legal, Entry, Partition, Encode, Decode;
    if pairs == [] {
      assert Body(pairs) + Zeros(n) == Zeros(n);
      assert Scan(Zeros(n)) == [];
    } else {
      var e, tail := Entry(pairs[0]), Body(pairs[1..]) + Zeros(n);
      EntryIsPlain(pairs[0]);
      assert Body(pairs) + Zeros(n) == e + ([0] + tail);
      ScanOne(e, tail);
      ScanBody(pairs[1..], n);
      hide Scan, Body;
      ParsedFirst(e, Scan(tail));
      MangledFirst(pairs);
    }
  }

  lemma ParsedFirst(e: Bytes, es: seq<Bytes>)
    ensures Parsed([e] + es) == [Partition(e)] + Parsed(es)
  {
  }

  lemma MangledFirst(pairs: Pairs)
    requires pairs != []
    ensures Mangled(pairs) == [(Decode(Encode(pairs[0].0)), Decode(Encode(pairs[0].1)))] + Mangled(pairs[1..])
  {
  }

  /** Every block that is built parses with a good checksum, in either byte order and at any size, to the pairs as
      ASCII renders them. */
  lemma BlockParses(pairs: Pairs, size: int, big: bool, crc: Checksum)
    requires AllLegal(pairs) && |Body(pairs)| + 5 <= size
    ensures var blob := Pack(crc(Data(pairs, size)), big) + Data(pairs, size);
      && |blob| == size && crc(blob[4..]) == Unpack(blob[..4], big)
      && Assoc(Parsed(Scan(blob[4..]))) == Assoc(Mangled(pairs))
  {
    var data := Data(pairs, size);
    var blob := Pack(crc(data), big) + data;
    ScanBody(pairs, size - 4 - |Body(pairs)|);
    hide Scan, Parsed, Mangled, Assoc, Body, Unpack, Pack;
    assert blob[..4] == Pack(crc(data), big) && blob[4..] == data;
  }

  predicate Distinct(pairs: Pairs) {
    forall i, j :: 0 <= i < j < |pairs| ==> pairs[i].0 != pairs[j].0
  }

  predicate AllAscii(pairs: Pairs) {
    forall i :: 0 <= i < |pairs| ==> Ascii(pairs[i].0) && Ascii(pairs[i].1)
  }

  lemma {:induction false} AssocDomain(pairs: Pairs, k: string)
    ensures k in Assoc(pairs) <==> exists i :: 0 <= i < |pairs| && pairs[i].0 == k
    decreases |pairs|
  {
    if pairs == [] {
      assert Assoc(pairs) == map[];
    } else {
      var front := pairs[..|pairs| - 1];
      AssocDomain(front, k);
      if i :| 0 <= i < |pairs| && pairs[i].0 == k && i < |front| {
        assert front[i].0 == k;
      }
    }
  }

  lemma {:induction false} AssocValue(pairs: Pairs, i: nat)
    requires i < |pairs| && Distinct(pairs)
    ensures pairs[i].0 in Assoc(pairs) && Assoc(pairs)[pairs[i].0] == pairs[i].1
    decreases |pairs|
  {
    if i == |pairs| - 1 {
      assert Assoc(pairs) == Assoc(pairs[..i])[pairs[i].0 := pairs[i].1];
    } else {
      AssocValue(pairs[..|pairs| - 1], i);
    }
  }

  /** Among the keys that are not ASCII, one that no other outgrows. */
  lemma {:induction false} LongestForeignKey(pairs: Pairs, n: nat) returns (j: nat)
    requires n <= |pairs| && exists i :: 0 <= i < n && !Ascii(pairs[i].0)
    ensures j < n && !Ascii(pairs[j].0) && forall i :: 0 <= i < n && !Ascii(pairs[i].0) ==> |pairs[i].0| <= |pairs[j].0|
  {
    hide Ascii;
    if exists i :: 0 <= i < n - 1 && !Ascii(pairs[i].0) {
      j := LongestForeignKey(pairs, n - 1);
      if !Ascii(pairs[n - 1].0) && |pairs[n - 1].0| > |pairs[j].0| {
        j := n - 1;
      }
    } else {
      j := n - 1;
    }
  }

  /** Text that is not ASCII comes back longer, and still not ASCII. */
  lemma ForeignGrows(s: string)
    requires !Ascii(s)
    ensures |Decode(Encode(s))| > |s| && !Ascii(Decode(Encode(s)))
  {
    EncodeLength(s);
    hide Encode;
    var i :| 0 <= i < |Encode(s)| && Encode(s)[i] >= 128;
    assert Decode(Encode(s))[i] as int == 0xFFFD;
  }

  lemma ForeignKeyIsLost(pairs: Pairs)
    requires exists i :: 0 <= i < |pairs| && !Ascii(pairs[i].0)
    ensures Assoc(Mangled(pairs)) != Assoc(pairs)
  {
    var j := LongestForeignKey(pairs, |pairs|);
    ForeignGrows(pairs[j].0);
    var k := Decode(Encode(pairs[j].0));
    hide Encode, Decode, Ascii, Assoc;
    assert Mangled(pairs)[j].0 == k;
    AssocDomain(Mangled(pairs), k);
    AssocDomain(pairs, k);
  }

  lemma MangledAscii(pairs: Pairs)
    requires AllAscii(pairs)
    ensures Mangled(pairs) == pairs
  {
    forall i | 0 <= i < |pairs|
      ensures Mangled(pairs)[i] == pairs[i]
    {
      DecodeEncode(pairs[i].0);
      DecodeEncode(pairs[i].1);
    }
  }

  lemma ForeignValueIsLost(pairs: Pairs, j: nat)
    requires Distinct(pairs) && (forall i :: 0 <= i < |pairs| ==> Ascii(pairs[i].0)) && j < |pairs| && !Ascii(pairs[j].1)
    ensures Assoc(Mangled(pairs)) != Assoc(pairs)
  {
    var ms := Mangled(pairs);
    forall i | 0 <= i < |pairs|
      ensures ms[i].0 == pairs[i].0
    {
      DecodeEncode(pairs[i].0);
    }
    ForeignGrows(pairs[j].1);
    hide Encode, Decode, Ascii, Assoc;
    AssocValue(ms, j);
    AssocValue(pairs, j);
  }

  /** The environment a built block parses to is the one it was built from exactly when that one is ASCII. */
  lemma RoundTrip(pairs: Pairs, size: int, big: bool, crc: Checksum)
    requires Distinct(pairs) && AllLegal(pairs) && |Body(pairs)| + 5 <= size
    ensures var blob := Pack(crc(Data(pairs, size)), big) + Data(pairs, size);
      && |blob| == size && crc(blob[4..]) == Unpack(blob[..4], big)
      && (Assoc(Parsed(Scan(blob[4..]))) == Assoc(pairs) <==> AllAscii(pairs))
  {
    BlockParses(pairs, size, big, crc);
    hide Scan, Parsed, Mangled, Assoc, Body, Unpack, Pack, Legal, Ascii;
    if AllAscii(pairs) {
      MangledAscii(pairs);
    } else if exists i :: 0 <= i < |pairs| && !Ascii(pairs[i].0) {
      ForeignKeyIsLost(pairs);
    } else {
      var j :| 0 <= j < |pairs| && !(Ascii(pairs[j].0) && Ascii(pairs[j].1));
      ForeignValueIsLost(pairs, j);
    }
  }

  /** Building a block and reading it back, as is done before one is written to the device. */
  method BuildAndCheck(pairs: Pairs, size: int, big: bool, crc: Checksum) returns (r: Option<(bool, map<string, string>)>)
    requires Distinct(pairs)
    ensures r.Some? <==> AllLegal(pairs) && |Body(pairs)| + 5 <= size
    ensures r.Some? ==> r.value.0 && (r.value.1 == Assoc(pairs) <==> AllAscii(pairs))
    ensures r.Some? && AllAscii(pairs) ==> forall i :: 0 <= i < |pairs| ==> pairs[i].0 in r.value.1 && r.value.1[pairs[i].0] == pairs[i].1
  {
    hide Scan, Parsed, Assoc, Body, Unpack, Pack, Legal, Ascii;
    var blob := Build(pairs, size, big, crc);
    if blob.Error? {
      return None;
    }
    RoundTrip(pairs, size, big, crc);
    var ok, out := Parse(blob.value, big, crc);
    forall i | 0 <= i < |pairs|
      ensures pairs[i].0 in Assoc(pairs) && Assoc(pairs)[pairs[i].0] == pairs[i].1
    {
      AssocValue(pairs, i);
    }
    return Some((ok, out));
  }
}
