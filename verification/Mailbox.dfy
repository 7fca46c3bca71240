/** Handing commands to the bootloader through a mailbox in its memory, while it runs.

    Between any two accesses of the host the bootloader may have taken any number of steps.  */
module Mailbox {
  import opened Outcomes
  import opened FlowCodec

  const STATE := 0x6c000
  const LEN := 0x6c004
  const CMD := 0x6c008
  const MAXLEN := 0xf7
  const READY := 2
  const PRESENT := 1
  const RETRIES := 200
  const CHUNK := 64 * 1024

  type Memory = int -> byte
  type Access = (int, Bytes)

  function Slice(m: Memory, off: int, n: nat): (b: Bytes)
    ensures |b| == n && forall i :: 0 <= i < n ==> b[i] == m(off + i)
  {
    seq(n, i requires 0 <= i < n => m(off + i))
  }

  function Write(m: Memory, off: int, data: Bytes): Memory {
    i => if off <= i < off + |data| then data[i - off] else m(i)
  }

  function Word(m: Memory, off: int): int {
    Int32(Slice(m, off, 4))
  }

  /** The mailbox holds exactly this command. */
  ghost predicate Presents(m: Memory, cmd: Bytes) {
    |cmd| <= MAXLEN && Word(m, LEN) == |cmd| && Slice(m, CMD, |cmd|) == cmd
  }

  predicate InMailbox(i: int) {
    STATE <= i < CMD + MAXLEN
  }

  /** The image would overlap the mailbox. */
  predicate Conflict(addr: int, size: int) {
    addr < CMD + MAXLEN && addr + size > STATE
  }

  /** The conflict check is exact. */
  lemma ConflictIsOverlap(addr: int, size: int)
    requires size > 0
    ensures Conflict(addr, size) <==> exists i :: addr <= i < addr + size && InMailbox(i)
  {
    if Conflict(addr, size) {
      var i := if addr < STATE then STATE else addr;
      assert InMailbox(i);
    }
  }

  lemma SliceSame(m: Memory, m': Memory, off: int, n: nat)
    requires forall i :: off <= i < off + n ==> m'(i) == m(i)
    ensures Slice(m', off, n) == Slice(m, off, n)
  {
  }

  /** Everything a mailbox reader looks at is the same. */
  lemma SameMailbox(m: Memory, m': Memory)
    requires forall i :: InMailbox(i) ==> m'(i) == m(i)
    ensures Word(m', STATE) == Word(m, STATE) && Word(m', LEN) == Word(m, LEN)
    ensures forall cmd :: Presents(m, cmd) ==> Presents(m', cmd)
  {
  }

  /** Writing the state word changes no other part of the mailbox. */
  lemma StateWritten(m: Memory, v: int)
    requires 0 <= v < U32
    ensures Word(Write(m, STATE, BE32(v)), STATE) == v
    ensures forall cmd :: Presents(Write(m, STATE, BE32(v)), cmd) <==> Presents(m, cmd)
  {
  }

  /** The first three bytes of the doorbell are those of a ready mailbox. */
  lemma ReadyBytes(m: Memory)
    requires Word(m, STATE) == READY
    ensures BE32(PRESENT)[3] == 1 && forall n :: 0 <= n < 3 ==> m(STATE + n) == BE32(PRESENT)[n]
  {
    var b := Slice(m, STATE, 4);
    assert b == [m(STATE), m(STATE + 1), m(STATE + 2), m(STATE + 3)];
    assert BE32(PRESENT) == [0, 0, 0, 1];
  }

  /** The last byte turns a ready mailbox into one with a command. */
  lemma LastByte(m: Memory, b: byte)
    requires Word(m, STATE) == READY && b == 1
    ensures Word(Write(m, STATE + 3, [b]), STATE) == PRESENT
    ensures forall cmd :: Presents(m, cmd) ==> Presents(Write(m, STATE + 3, [b]), cmd)
  {
    var m' := Write(m, STATE + 3, [b]);
    assert Slice(m, STATE, 4) == [m(STATE), m(STATE + 1), m(STATE + 2), m(STATE + 3)];
    assert Slice(m', STATE, 4) == [m(STATE), m(STATE + 1), m(STATE + 2), 1];
    forall cmd | Presents(m, cmd)
      ensures Presents(m', cmd)
    {
      SliceSame(m, m', LEN, 4);
      SliceSame(m, m', CMD, |cmd|);
    }
  }

  /** The bootloader and the memory it shares with the host. */
  class Target {
    var mem: Memory
    var busy: bool                    // a command has been taken and is being executed
    const spares: int -> bool         // addresses outside the mailbox that the bootloader never writes
    ghost var published: seq<Bytes>   // commands whose doorbell the host has rung
    ghost var consumed: seq<Bytes>    // commands the bootloader has read out of the mailbox

    /** A command that is present is complete and is the last one published, and everything else published has been consumed. */
    ghost predicate Valid()
      reads this
    {
      && (busy ==> Word(mem, STATE) != READY)
      && if Word(mem, STATE) == PRESENT && !busy
         then published != [] && consumed == published[..|published| - 1] && Presents(mem, published[|published| - 1])
         else consumed == published
    }

    constructor (mem: Memory, spares: int -> bool)
      requires Word(mem, STATE) != PRESENT
      ensures Valid() && this.mem == mem && this.spares == spares && published == consumed == []
    {
      this.mem, this.spares, busy := mem, spares, false;
      published, consumed := [], [];
    }

    /** One step of the bootloader: start up, take a command, finish it, or use its own memory. */
    method Step()
      modifies this`mem, this`busy, this`consumed
      ensures old(Valid()) ==> Valid()
      ensures old(Valid() && Word(mem, STATE) == READY) ==> !busy && Word(mem, STATE) == READY && forall i :: InMailbox(i) ==> mem(i) == old(mem)(i)
      ensures forall i :: spares(i) && !InMailbox(i) ==> mem(i) == old(mem)(i)
    {
      var choice: int, other: Memory := *, *;
      var state := Word(mem, STATE);
      if choice == 0 && !busy && state == PRESENT {
        var cmd := Slice(mem, CMD, Word(mem, LEN));
        consumed := consumed + [cmd];
        busy := true;
      } else if choice == 1 && busy {
        StateWritten(mem, READY);
        mem, busy := Write(mem, STATE, BE32(READY)), false;
      } else if choice == 2 && busy {
        StateWritten(mem, 0);
        mem := Write(mem, STATE, BE32(0));
      } else if choice == 3 && !busy && state != PRESENT {
        StateWritten(mem, READY);
        mem := Write(mem, STATE, BE32(READY));
      } else if choice == 4 {
        var m, own := mem, spares;
        mem := i => if InMailbox(i) || own(i) then m(i) else other(i);
        SameMailbox(m, mem);
      }
    }

    /** Any number of steps. */
    method Interlude()
      modifies this`mem, this`busy, this`consumed
      ensures old(Valid()) ==> Valid()
      ensures old(Idle()) ==> Idle() && forall i :: InMailbox(i) ==> mem(i) == old(mem)(i)
      ensures forall i :: spares(i) && !InMailbox(i) ==> mem(i) == old(mem)(i)
    {
      hide Word, Presents, InMailbox;
      var steps: int := *;
      for n := 0 to if steps < 0 then 0 else steps
        invariant old(Valid()) ==> Valid()
        invariant old(Idle()) ==> Idle() && forall i :: InMailbox(i) ==> mem(i) == old(mem)(i)
        invariant forall i :: spares(i) && !InMailbox(i) ==> mem(i) == old(mem)(i)
      {
        Step();
      }
    }

    /** Ready for work: the mailbox is the host's. */
    ghost predicate Idle()
      reads this
    {
      Valid() && Word(mem, STATE) == READY
    }
  }

  datatype Status = Sent | DryRun | Refused | NeverReady | NotConsumed

  class BootBar {
    const target: Target
    const dryRun: bool
    var writes: seq<Access>           // what was, or in a dry run would have been, written
    ghost var applied: seq<Access>    // what reached memory

    constructor (target: Target, dryRun: bool)
      ensures this.target == target && this.dryRun == dryRun && writes == applied == []
    {
      this.target, this.dryRun, writes, applied := target, dryRun, [], [];
    }

    /** One byte, and whatever the bootloader does next. */
    method Poke(at: int, b: byte)
      modifies target`mem, target`busy, target`consumed
      ensures old(target.Valid()) && !InMailbox(at) ==> target.Valid()
      ensures old(target.Idle()) && (at >= LEN || old(target.mem)(at) == b) ==>
                target.Idle() && forall i :: InMailbox(i) ==> target.mem(i) == if i == at then b else old(target.mem)(i)
      ensures forall i :: target.spares(i) && !InMailbox(i) ==> target.mem(i) == if i == at then b else old(target.mem)(i)
    {
      PokeKeeps(target.mem, at, b);
      hide Word, Presents;
      target.mem := Write(target.mem, at, [b]);
      target.Interlude();
    }

    /** Writes bytes; they reach memory one at a time while the bootloader runs. */
    method WriteBytes(off: int, data: Bytes)
      modifies this`writes, this`applied, target`mem, target`busy, target`consumed
      ensures writes == old(writes) + [(off, data)]
      ensures applied == if dryRun then old(applied) else old(applied) + [(off, data)]
      // anywhere outside the mailbox
      ensures old(target.Valid()) && (dryRun || !Conflict(off, |data|)) ==> target.Valid()
      ensures !dryRun && (forall i :: off <= i < off + |data| ==> target.spares(i)) && !Conflict(off, |data|) ==> Slice(target.mem, off, |data|) == data
      ensures forall i :: target.spares(i) && !InMailbox(i) && (dryRun || !(off <= i < off + |data|)) ==> target.mem(i) == old(target.mem)(i)
      // into an idle mailbox, short of its state word
      ensures old(target.Idle()) && off >= LEN ==> target.Idle()
      ensures old(target.Idle()) && off >= LEN && !dryRun && off + |data| <= CMD + MAXLEN ==>
                && Slice(target.mem, off, |data|) == data
                && forall i :: InMailbox(i) && !(off <= i < off + |data|) ==> target.mem(i) == old(target.mem)(i)
    {
      hide Target.Valid, Target.Idle;
      writes := writes + [(off, data)];
      target.Interlude();
      if !dryRun {
        applied := applied + [(off, data)];
        for n := 0 to |data|
          invariant writes == old(writes) + [(off, data)] && applied == old(applied) + [(off, data)]
          invariant old(target.Valid()) && !Conflict(off, |data|) ==> target.Valid()
          invariant forall i :: off <= i < off + n && target.spares(i) && !InMailbox(i) ==> target.mem(i) == data[i - off]
          invariant forall i :: target.spares(i) && !InMailbox(i) && !(off <= i < off + |data|) ==> target.mem(i) == old(target.mem)(i)
          invariant old(target.Idle()) && off >= LEN ==> target.Idle()
          invariant old(target.Idle()) && off >= LEN && off + |data| <= CMD + MAXLEN ==>
                      && (forall i :: off <= i < off + n ==> target.mem(i) == data[i - off])
                      && forall i :: InMailbox(i) && !(off <= i < off + |data|) ==> target.mem(i) == old(target.mem)(i)
        {
          Poke(off + n, data[n]);
        }
      }
    }

    /** Polls the state word until it reads ready. */
    method WaitReady(retries: int) returns (ready: bool, polls: int)
      requires target.Valid()
      modifies target`mem, target`busy, target`consumed
      ensures target.Valid() && (ready ==> target.Idle())
      ensures if ready then 1 <= polls <= (if retries < 1 then 1 else retries) else polls == retries
      ensures forall i :: target.spares(i) && !InMailbox(i) ==> target.mem(i) == old(target.mem)(i)
    {
      hide Presents, InMailbox;
      for i := 0 to if retries < 1 then 1 else retries
        invariant target.Valid()
        invariant forall i :: target.spares(i) && !InMailbox(i) ==> target.mem(i) == old(target.mem)(i)
      {
        target.Interlude();
        if Word(target.mem, STATE) == READY {
          return true, i + 1;
        }
      }
      return false, retries;
    }

    /** Rings the doorbell for the command in the mailbox: four bytes, of which only the last differs from what a ready
        mailbox holds. */
    method Ring(cmd: Bytes)
      requires target.Idle() && (dryRun || Presents(target.mem, cmd))
      modifies this`writes, this`applied, target`mem, target`busy, target`consumed, target`published
      ensures target.Valid()
      ensures target.published == if dryRun then old(target.published) else old(target.published) + [cmd]
      ensures writes == old(writes) + [(STATE, BE32(PRESENT))]
      ensures applied == if dryRun then old(applied) else old(applied) + [(STATE, BE32(PRESENT))]
      ensures forall i :: target.spares(i) && !InMailbox(i) ==> target.mem(i) == old(target.mem)(i)
    {
      hide Word, Presents, BE32;
      writes := writes + [(STATE, BE32(PRESENT))];
      ghost var before := target.mem;
      target.Interlude();
      if !dryRun {
        applied := applied + [(STATE, BE32(PRESENT))];
        var word := BE32(PRESENT);
        ReadyBytes(before);
        for n := 0 to 3
          invariant target.Idle() && forall i :: InMailbox(i) ==> target.mem(i) == before(i)
          invariant target.published == old(target.published)
          invariant writes == old(writes) + [(STATE, BE32(PRESENT))] && applied == old(applied) + [(STATE, BE32(PRESENT))]
          invariant forall i :: target.spares(i) && !InMailbox(i) ==> target.mem(i) == old(target.mem)(i)
        {
          Poke(STATE + n, word[n]);
        }
        SameMailbox(before, target.mem);
        LastByte(target.mem, word[3]);
        target.mem := Write(target.mem, STATE + 3, [word[3]]);
        target.published := target.published + [cmd];
        target.Interlude();
      }
    }

    /** The string, then its length. */
    method Fill(cmd: Bytes)
      requires target.Idle() && |cmd| <= MAXLEN
      modifies this`writes, this`applied, target`mem, target`busy, target`consumed
      ensures target.Idle() && (dryRun || Presents(target.mem, cmd))
      ensures writes == old(writes) + [(CMD, cmd), (LEN, BE32(|cmd|))]
      ensures applied == if dryRun then old(applied) else old(applied) + [(CMD, cmd), (LEN, BE32(|cmd|))]
      ensures forall i :: target.spares(i) && !InMailbox(i) ==> target.mem(i) == old(target.mem)(i)
    {
      hide Target.Idle, BE32, Int32;
      WriteBytes(CMD, cmd);
      ghost var written := target.mem;
      WriteBytes(LEN, BE32(|cmd|));
      if !dryRun {
        SliceSame(written, target.mem, CMD, |cmd|);
      }
    }

    /** Delivers one command.  A command once published is never overwritten, however long it stays unconsumed. */
    method Send(cmd: Bytes, knownGeneration: bool, force: bool, retries: int) returns (status: Status)
      requires target.Valid()
      modifies this`writes, this`applied, target`mem, target`busy, target`consumed, target`published
      ensures target.Valid()
      ensures status.Refused? <==> |cmd| > MAXLEN || !knownGeneration
      ensures status.Refused? || status.NeverReady? ==> target.published == old(target.published) && writes == old(writes) && applied == old(applied)
      ensures !status.Refused? && !status.NeverReady? ==>
                && writes == old(writes) + Posting(cmd) && applied == (if dryRun then old(applied) else old(applied) + Posting(cmd))
                && target.published == (if dryRun then old(target.published) else old(target.published) + [cmd])
      ensures status.Sent? ==> !dryRun && force && target.consumed == target.published == old(target.published) + [cmd]
      ensures status.NotConsumed? ==> !dryRun && force
      ensures status.DryRun? ==> dryRun || !force
      ensures forall i :: target.spares(i) && !InMailbox(i) ==> target.mem(i) == old(target.mem)(i)
    {
      if |cmd| > MAXLEN || !knownGeneration {
        return Refused;
      }
      hide Target.Valid, Presents, Word, InMailbox, BE32;
      var ready, polls := WaitReady(retries);
      if !ready {
        return NeverReady;
      }
      Fill(cmd);
      Ring(cmd);
      if dryRun || !force {
        return DryRun;
      }
      ready, polls := WaitReady(retries);
      if !ready {
        return NotConsumed;
      }
      ReadyMeansConsumed(target);
      return Sent;
    }

    /** Copies an image into memory in window-sized pieces.  Nothing keeps it off the mailbox but the caller. */
    method Load(addr: int, data: Bytes, force: bool) returns (status: Status)
      modifies this`writes, this`applied, target`mem, target`busy, target`consumed
      ensures status.Refused? <==> data == [] || addr <= 0
      ensures status.Refused? ==> writes == old(writes) && applied == old(applied)
      ensures status.Sent? ==> !dryRun && force
      ensures status.DryRun? ==> dryRun || !force
      ensures status.Refused? || status.Sent? || status.DryRun?
      ensures dryRun ==> applied == old(applied)
      ensures old(target.Valid()) && (dryRun || !Conflict(addr, |data|)) ==> target.Valid()
      ensures !dryRun && !status.Refused? && !Conflict(addr, |data|) && (forall i :: addr <= i < addr + |data| ==> target.spares(i))
              ==> Slice(target.mem, addr, |data|) == data
      ensures forall i :: target.spares(i) && !InMailbox(i) && (dryRun || !(addr <= i < addr + |data|)) ==> target.mem(i) == old(target.mem)(i)
    {
      hide Target.Valid, Target.Idle, Presents, Word;
      if data == [] || addr <= 0 {
        return Refused;
      }
      var n := 0;
      while n < |data|
        invariant 0 <= n <= |data| && (dryRun ==> applied == old(applied))
        invariant old(target.Valid()) && (dryRun || !Conflict(addr, |data|)) ==> target.Valid()
        invariant !dryRun && !Conflict(addr, |data|) && (forall i :: addr <= i < addr + |data| ==> target.spares(i)) ==>
                    forall i :: addr <= i < addr + n ==> target.mem(i) == data[i - addr]
        invariant forall i :: target.spares(i) && !InMailbox(i) && (dryRun || !(addr <= i < addr + |data|)) ==> target.mem(i) == old(target.mem)(i)
      {
        var m := if n + CHUNK < |data| then n + CHUNK else |data|;
        ghost var before := target.mem;
        WriteBytes(addr + n, data[n..m]);
        Piece(before, target.mem, addr, data, n, m);
        n := m;
      }
      return if dryRun || !force then DryRun else Sent;
    }

    /** Announces a loaded image: its address, then its size. */
    method Publish(addr: int, size: int, knownGeneration: bool, force: bool) returns (status: Status)
      requires target.Valid()
      modifies this`writes, this`applied, target`mem, target`busy, target`consumed, target`published
      ensures target.Valid() && (size <= 0 ==> status.Refused?)
      ensures status.Sent? ==> target.consumed == target.published == old(target.published) + [FileAddr(addr), FileSize(size)]
      // as a reader takes them
      ensures status.Sent? ==>
                var last := |target.consumed| - 1;
                (addr >= 0 ==> Sets(target.consumed[last - 1], Ascii("fileaddr"), addr)) && Sets(target.consumed[last], Ascii("filesize"), size)
      ensures old(target.published) <= target.published && |target.published| <= |old(target.published)| + 2
      ensures dryRun ==> target.published == old(target.published) && applied == old(applied)
      ensures forall i :: target.spares(i) && !InMailbox(i) ==> target.mem(i) == old(target.mem)(i)
    {
      hide Target.Valid, InMailbox, FileAddr, FileSize, Posting, Sets;
      if size <= 0 {
        return Refused;
      }
      AnnouncementsTell(size);
      if addr >= 0 {
        AnnouncementsTell(addr);
      }
      status := Send(FileAddr(addr), knownGeneration, force, RETRIES);
      if force && !dryRun && !status.Sent? {
        return;
      }
      status := Send(FileSize(size), knownGeneration, force, RETRIES);
      if dryRun || !force {
        return DryRun;
      }
    }

    /** Stages a bitstream and has the bootloader program it from there. */
    method ProgramFpga(data: Bytes, addr: int, again: bool, knownGeneration: bool, force: bool, delay: Option<int>) returns (status: Status)
      requires target.Valid()
      modifies this`writes, this`applied, target`mem, target`busy, target`consumed, target`published
      ensures target.Valid()
      ensures data == [] || Conflict(addr, |data|) || FpgaCommand(addr, |data|, delay, again).Error? ==>
                status.Refused? && target.published == old(target.published) && applied == old(applied) && writes == old(writes)
      ensures status.Sent? ==>
                && FpgaCommand(addr, |data|, delay, again).Ok?
                && target.consumed == target.published == old(target.published) + [FpgaCommand(addr, |data|, delay, again).value]
      ensures old(target.published) <= target.published && |target.published| <= |old(target.published)| + 1
      // the bootloader is told to program from there, and the region it is told holds the bitstream
      ensures status.Sent? ==> Tells(target.consumed[|target.consumed| - 1], addr, |data|, delay, again)
      ensures status.Sent? && (forall i :: addr <= i < addr + |data| ==> target.spares(i)) ==>
                HoldsAsTold(target.mem, target.consumed[|target.consumed| - 1], data)
      ensures status.Sent? && (forall i :: addr <= i < addr + |data| ==> target.spares(i)) ==> Slice(target.mem, addr, |data|) == data
      ensures dryRun ==> target.published == old(target.published) && applied == old(applied)
    {
      hide Target.Valid, FpgaCommand, Posting, Number, Field, Words, Ascii;
      if data == [] || Conflict(addr, |data|) {
        return Refused;
      }
      var cmd := FpgaCommand(addr, |data|, delay, again);
      if cmd.Error? {
        return Refused;
      }
      CommandTells(addr, |data|, delay, again);
      status := Load(addr, data, force);
      if force && !dryRun && !status.Sent? {
        return;
      }
      ghost var staged := target.mem;
      status := Send(cmd.value, knownGeneration, force, RETRIES);
      if (forall i :: addr <= i < addr + |data| ==> target.spares(i)) {
        SliceSame(staged, target.mem, addr, |data|);
      }
      if dryRun || !force {
        return DryRun;
      }
    }
  }

  // ------------------------------------------------------------ command strings

  function Ascii(s: string): (b: Bytes)
    requires forall i :: 0 <= i < |s| ==> s[i] < 128 as char
    ensures |b| == |s|
  {
    seq(|s|, i requires 0 <= i < |s| => s[i] as int)
  }

  const SPACE: byte := 32

  function Digit(d: int): (b: byte)
    requires 0 <= d < 16
    ensures b != SPACE && DigitValue(b) == d
  {
    if d < 10 then 48 + d else 87 + d
  }

  lemma DigitsAreHexadecimal()
    ensures forall d :: 0 <= d < 16 ==> Digit(d) == "0123456789abcdef"[d] as int
  {
    forall d | 0 <= d < 16
      ensures Digit(d) == "0123456789abcdef"[d] as int
    {
      assert d == 0 || d == 1 || d == 2 || d == 3 || d == 4 || d == 5 || d == 6 || d == 7 || d == 8 || d == 9 || d == 10 || d == 11 || d == 12 || d == 13
             || d == 14 || d == 15;
    }
  }

  function DigitValue(b: byte): int {
    if b < 58 then b - 48 else b - 87
  }

  /** Lower-case hexadecimal without a prefix, as %x prints it. */
  function Hex(n: int): (b: Bytes)
    decreases n < 0, n
  {
    if n < 0 then Ascii("-") + Hex(-n)
    else if n < 16 then [Digit(n)]
    else Hex(n / 16) + [Digit(n % 16)]
  }

  /** The number a bare hexadecimal string stands for. */
  function HexValue(b: Bytes): int
    decreases |b|
  {
    if b == [] then 0 else HexValue(b[..|b| - 1]) * 16 + DigitValue(b[|b| - 1])
  }

  lemma {:induction false} HexRoundTrip(n: int)
    requires n >= 0
    ensures HexValue(Hex(n)) == n
    ensures forall i :: 0 <= i < |Hex(n)| ==> Hex(n)[i] != SPACE
    decreases n
  {
    var b := Hex(n);
    if n >= 16 {
      HexRoundTrip(n / 16);
      assert b[..|b| - 1] == Hex(n / 16);
    } else {
      assert b[..|b| - 1] == [];
    }
  }

  lemma {:induction false} HexIsOneWord(n: int)
    ensures forall i :: 0 <= i < |Hex(n)| ==> Hex(n)[i] != SPACE
    decreases n < 0, n
  {
    if n < 0 {
      HexIsOneWord(-n);
    } else {
      HexRoundTrip(n);
    }
  }

  predicate OneWord(w: Bytes) {
    forall i :: 0 <= i < |w| ==> w[i] != SPACE
  }

  /** Words in a row, with single spaces between. */
  function Join(words: seq<Bytes>): Bytes
    decreases |words|
  {
    if words == [] then [] else if |words| == 1 then words[0] else words[0] + ([SPACE] + Join(words[1..]))
  }

  /** The length of the text up to the first space. */
  function UpToSpace(b: Bytes): (n: nat)
    ensures n <= |b| && OneWord(b[..n]) && (n < |b| ==> b[n] == SPACE)
  {
    if b == [] || b[0] == SPACE then 0
    else
      var n := 1 + UpToSpace(b[1..]);
      assert b[..n] == [b[0]] + b[1..][..n - 1];
      n
  }

  /** How a reader takes a command apart. */
  function Words(b: Bytes): seq<Bytes>
    decreases |b|
  {
    var n := UpToSpace(b);
    if n == |b| then [b] else [b[..n]] + Words(b[n + 1..])
  }

  /** What the first word that begins with a key says. */
  function Field(words: seq<Bytes>, key: Bytes): Option<Bytes>
    decreases |words|
  {
    if words == [] then None
    else if |key| <= |words[0]| && words[0][..|key|] == key then Some(words[0][|key|..])
    else Field(words[1..], key)
  }

  /** The number it says. */
  function Number(command: Bytes, key: Bytes): Option<int> {
    match Field(Words(command), key)
    case None => None
    case Some(text) => Some(HexValue(text))
  }

  lemma WordEnds(u: Bytes, t: Bytes)
    requires OneWord(u) && (t == [] || t[0] == SPACE)
    ensures UpToSpace(u + t) == |u|
  {
    assert forall i :: 0 <= i < |u| ==> (u + t)[i] == u[i];
    assert t != [] ==> (u + t)[|u|] == t[0];
  }

  /** Joined words are read back as they were. */
  lemma {:induction false} WordsOfJoin(words: seq<Bytes>)
    requires words != [] && forall i :: 0 <= i < |words| ==> OneWord(words[i])
    ensures Words(Join(words)) == words
    decreases |words|
  {
    if |words| == 1 {
      WordEnds(words[0], []);
      assert words[0] + [] == words[0];
    } else {
      var rest := Join(words[1..]);
      var tail := [SPACE] + rest;
      WordEnds(words[0], tail);
      var b := words[0] + tail;
      assert b[..|words[0]|] == words[0] && b[|words[0]| + 1..] == rest;
      WordsOfJoin(words[1..]);
      assert [words[0]] + words[1..] == words;
    }
  }

  const Setenv: Bytes := Ascii("setenv")
  const FileAddrName: Bytes := Ascii("fileaddr")
  const FileSizeName: Bytes := Ascii("filesize")
  const HexMark: Bytes := Ascii("0x")

  function FileAddr(addr: int): Bytes {
    Join([Setenv, FileAddrName, HexMark + Hex(addr)])
  }

  function FileSize(size: int): Bytes {
    Join([Setenv, FileSizeName, HexMark + Hex(size)])
  }

  /** The command sets this variable to this number. */
  predicate Sets(command: Bytes, name: Bytes, value: int) {
    var words := Words(command);
    && |words| == 3 && words[0] == Ascii("setenv") && words[1] == name
    && |words[2]| >= 2 && words[2][..2] == Ascii("0x") && HexValue(words[2][2..]) == value
  }

  lemma AnnouncementsTell(n: int)
    requires n >= 0
    ensures Sets(FileAddr(n), Ascii("fileaddr"), n) && Sets(FileSize(n), Ascii("filesize"), n)
  {
    HexRoundTrip(n);
    hide Hex, HexValue, Words, Join;
    NamesAreWords();
    var number := HexMark + Hex(n);
    WordsOfJoin([Setenv, FileAddrName, number]);
    WordsOfJoin([Setenv, FileSizeName, number]);
    assert number[..2] == HexMark && number[2..] == Hex(n);
  }

  lemma NamesAreWords()
    ensures OneWord(Setenv) && OneWord(FileAddrName) && OneWord(FileSizeName) && OneWord(HexMark)
    ensures OneWord(FpgaName) && OneWord(LoadNone) && OneWord(Selector) && OneWord(AddrKey) && OneWord(SizeKey) && OneWord(DelayKey) && OneWord(ForceName)
  {
  }

  const FpgaName: Bytes := Ascii("fpga_program")
  const LoadNone: Bytes := Ascii("load=none")
  const Selector: Bytes := Ascii("ce40=ce40-file")
  const AddrKey: Bytes := Ascii("addr=")
  const SizeKey: Bytes := Ascii("size=")
  const DelayKey: Bytes := Ascii("delay=")
  const ForceName: Bytes := Ascii("force")

  function Options(delay: Option<int>, again: bool): seq<Bytes> {
    (if delay.Some? then [DelayKey + Hex(delay.value)] else []) + (if again then [ForceName] else [])
  }

  function FpgaWords(addr: int, size: int, delay: Option<int>, again: bool): seq<Bytes> {
    [FpgaName, LoadNone, Selector, AddrKey + Hex(addr), SizeKey + Hex(size)] + Options(delay, again)
  }

  /** Programming from memory: `size` is required, and the selector must be named. */
  function FpgaCommand(addr: int, size: int, delay: Option<int>, again: bool): (r: Result<Bytes>)
    ensures r.Ok? ==> addr > 0 && size > 0 && |r.value| <= MAXLEN
  {
    if addr <= 0 || size <= 0 then Error
    else
      var cmd := Join(FpgaWords(addr, size, delay, again));
      if |cmd| > MAXLEN then Error else Ok(cmd)
  }

  lemma FpgaWordsAreWords(addr: int, size: int, delay: Option<int>, again: bool)
    ensures forall i :: 0 <= i < |FpgaWords(addr, size, delay, again)| ==> OneWord(FpgaWords(addr, size, delay, again)[i])
  {
    NamesAreWords();
    HexIsOneWord(addr);
    HexIsOneWord(size);
    if delay.Some? {
      HexIsOneWord(delay.value);
    }
    hide Hex;
  }

  /** What a reader of the command is told: to program, from this address, this many bytes, with these options. */
  ghost predicate Tells(command: Bytes, addr: int, size: int, delay: Option<int>, again: bool) {
    && Words(command)[0] == Ascii("fpga_program") && Field(Words(command), Ascii("load=")) == Some(Ascii("none"))
    && Number(command, Ascii("addr=")) == Some(addr) && Number(command, Ascii("size=")) == Some(size)
    && (Field(Words(command), Ascii("delay=")).Some? <==> delay.Some?)
    && (delay.Some? && delay.value >= 0 ==> Number(command, Ascii("delay=")) == delay)
    && (Ascii("force") in Words(command) <==> again)
  }

  /** The region that the command names holds these bytes. */
  ghost predicate HoldsAsTold(m: Memory, command: Bytes, data: Bytes) {
    var addr, size := Number(command, Ascii("addr=")), Number(command, Ascii("size="));
    addr.Some? && size.Some? && size.value >= 0 && Slice(m, addr.value, size.value) == data
  }

  lemma CommandTells(addr: int, size: int, delay: Option<int>, again: bool)
    requires FpgaCommand(addr, size, delay, again).Ok?
    ensures Tells(FpgaCommand(addr, size, delay, again).value, addr, size, delay, again)
  {
    HexRoundTrip(addr);
    HexRoundTrip(size);
    if delay.Some? && delay.value >= 0 {
      HexRoundTrip(delay.value);
    }
    FpgaWordsAreWords(addr, size, delay, again);
    hide Hex, HexValue, Words, Join, Field, OneWord;
    WordsOfJoin(FpgaWords(addr, size, delay, again));
    FpgaFields(addr, size, delay, again);
  }

  predicate Begins(w: Bytes, letter: int) {
    w != [] && w[0] == letter
  }

  /** The first word with the key's initial is found, if it has the whole key. */
  lemma {:induction false} FieldAt(words: seq<Bytes>, key: Bytes, i: nat, text: Bytes)
    requires i < |words| && key != [] && words[i] == key + text
    requires forall j :: 0 <= j < i ==> words[j] != [] && words[j][0] != key[0]
    ensures Field(words, key) == Some(text)
    decreases i
  {
    if i == 0 {
      assert words[0][..|key|] == key && words[0][|key|..] == text;
    } else {
      assert |key| <= |words[0]| ==> words[0][..|key|][0] != key[0];
      FieldAt(words[1..], key, i - 1, text);
    }
  }

  lemma {:induction false} NoField(words: seq<Bytes>, key: Bytes)
    requires key != [] && forall j :: 0 <= j < |words| ==> words[j] != [] && words[j][0] != key[0]
    ensures Field(words, key) == None
    decreases |words|
  {
    if words == [] {
    } else {
      assert |key| <= |words[0]| ==> words[0][..|key|][0] != key[0];
      NoField(words[1..], key);
    }
  }

  lemma Initials()
    ensures Begins(FpgaName, 102) && Begins(LoadNone, 108) && Begins(Selector, 99) && Begins(AddrKey, 97) && Begins(SizeKey, 115)
    ensures Begins(DelayKey, 100) && Begins(ForceName, 102) && Begins(Ascii("load="), 108)
    ensures FpgaName[1] == 112 && |ForceName| == 5 && ForceName[1] == 111
    ensures LoadNone == Ascii("load=") + Ascii("none")
  {
  }

  lemma FpgaFields(addr: int, size: int, delay: Option<int>, again: bool)
    ensures var words := FpgaWords(addr, size, delay, again);
      && words[0] == Ascii("fpga_program") && Field(words, Ascii("load=")) == Some(Ascii("none"))
      && Field(words, Ascii("addr=")) == Some(Hex(addr)) && Field(words, Ascii("size=")) == Some(Hex(size))
      && Field(words, Ascii("delay=")) == (if delay.Some? then Some(Hex(delay.value)) else None)
      && (Ascii("force") in words <==> again)
  {
    hide Ascii, Hex, Field;
    Initials();
    var words := FpgaWords(addr, size, delay, again);
    FieldAt(words, Ascii("load="), 1, Ascii("none"));
    FieldAt(words, AddrKey, 3, Hex(addr));
    FieldAt(words, SizeKey, 4, Hex(size));
    if delay.Some? {
      FieldAt(words, DelayKey, 5, Hex(delay.value));
    } else {
      NoField(words, DelayKey);
    }
    assert forall i :: 0 <= i < 5 ==> words[i] != ForceName;
    assert delay.Some? ==> DelayKey + Hex(delay.value) != ForceName;
    assert again ==> words[|words| - 1] == ForceName;
  }

  /** The command a bootloader reads names one address and one size. */
  lemma CommandNamesItsRegion(addr: int, size: int, delay: Option<int>, again: bool, addr': int, size': int, delay': Option<int>, again': bool)
    requires FpgaCommand(addr, size, delay, again).Ok? && FpgaCommand(addr, size, delay, again) == FpgaCommand(addr', size', delay', again')
    ensures addr == addr' && size == size' && Options(delay, again) == Options(delay', again')
  {
    CommandTells(addr, size, delay, again);
    CommandTells(addr', size', delay', again');
    FpgaWordsAreWords(addr, size, delay, again);
    FpgaWordsAreWords(addr', size', delay', again');
    hide Hex, Words, Join, Options, OneWord, Field, Ascii;
    WordsOfJoin(FpgaWords(addr, size, delay, again));
    WordsOfJoin(FpgaWords(addr', size', delay', again'));
    assert Options(delay, again) == FpgaWords(addr, size, delay, again)[5..];
    assert Options(delay', again') == FpgaWords(addr', size', delay', again')[5..];
  }

  /** What one delivery writes, in order: the string, its length, and the doorbell last. */
  function Posting(cmd: Bytes): seq<Access>
    requires |cmd| <= MAXLEN
  {
    [(CMD, cmd), (LEN, BE32(|cmd|)), (STATE, BE32(PRESENT))]
  }

  lemma ReadyMeansConsumed(t: Target)
    requires t.Idle()
    ensures t.consumed == t.published
  {
  }

  lemma Piece(before: Memory, after: Memory, addr: int, data: Bytes, n: nat, m: nat)
    requires n <= m <= |data|
    ensures !Conflict(addr, |data|) ==> !Conflict(addr + n, m - n)
    ensures (forall i :: addr <= i < addr + n ==> before(i) == data[i - addr] && after(i) == before(i)) && Slice(after, addr + n, m - n) == data[n..m]
            ==> forall i :: addr <= i < addr + m ==> after(i) == data[i - addr]
  {
    var written := Slice(after, addr + n, m - n);
    if written == data[n..m] {
      forall i | addr + n <= i < addr + m
        ensures after(i) == data[i - addr]
      {
        assert written[i - addr - n] == data[i - addr];
      }
    }
  }

  /** A byte outside the mailbox leaves the mailbox alone; a byte behind the state word leaves the state alone. */
  lemma PokeKeeps(m: Memory, at: int, b: byte)
    ensures var m' := Write(m, at, [b]);
      && (!InMailbox(at) ==> Word(m', STATE) == Word(m, STATE) && forall cmd :: Presents(m, cmd) ==> Presents(m', cmd))
      && (at >= LEN ==> Word(m', STATE) == Word(m, STATE))
      && (m(at) == b ==> Word(m', STATE) == Word(m, STATE) && forall i :: m'(i) == m(i))
  {
  }

  datatype Op = Deliver(cmd: Bytes, force: bool, retries: int) | Announce(addr: int, size: int, force: bool) | Program(data: Bytes, addr: int, force: bool)

  /** Any series of operations on a live mailbox, timed out or not: commands are consumed as published, in order, each once,
      and at most the last one is still waiting. */
  method Run(bar: BootBar, ops: seq<Op>)
    requires bar.target.Valid()
    modifies bar, bar.target
    ensures bar.target.Valid() && old(bar.target.published) <= bar.target.published
    ensures bar.target.consumed <= bar.target.published && |bar.target.published| <= |bar.target.consumed| + 1
    ensures Word(bar.target.mem, STATE) == READY ==> bar.target.consumed == bar.target.published
  {
    for i := 0 to |ops|
      invariant bar.target.Valid() && old(bar.target.published) <= bar.target.published
    {
      hide Target.Valid, Posting, FpgaCommand, FileAddr, FileSize;
      match ops[i] {
        case Deliver(cmd, force, retries) =>
          var _ := bar.Send(cmd, true, force, retries);
        case Announce(addr, size, force) =>
          var _ := bar.Publish(addr, size, true, force);
        case Program(data, addr, force) =>
          var _ := bar.ProgramFpga(data, addr, false, true, force, None);
      }
    }
  }
}
