/**
 Getting the unwinding instructions of a function: `ArmExidx::ExtractEntryData`, for the index
 table and the exception-handling table entries of section 6 of ARM IHI 0038B.
 */
module ArmEntry {
  import opened Basics
  import opened DwarfMemory
  import opened ArmExidx
  import opened ArmPrologue

  const FINISH: byte := 0xb0

  datatype Failure =
    | InvalidAlignment | CannotUnwind | InvalidPersonality | Malformed | Unreadable(address: word)

  datatype Extracted = Data(bytes: seq<byte>) | Failed(failure: Failure)

  /** The bytes of a word, the most significant first. */
  function BytesOf(w: word): (r: seq<byte>)
    ensures |r| == 4
  {
    [w / 0x100_0000, w / 0x1_0000 % 256, w / 0x100 % 256, w % 256]
  }

  /** A 32-bit sum. */
  function Sum32(a: int, b: int): word {
    (a + b) % TWO32
  }

  /** Where a prel31 offset at `place` points to. */
  function Prel31(place: word, w: word): word
    requires w < 0x8000_0000
  {
    Sum32(place, if w < 0x4000_0000 then w else w - 0x8000_0000)
  }

  /** Instructions that do not end with a finish get one. */
  function Padded(code: seq<byte>): seq<byte> {
    if code != [] && code[|code| - 1] == FINISH then code else code + [FINISH]
  }

  /** The `n` words from `addr` on. */
  function ReadWords(memory: Memory, addr: word, n: nat): Extracted
    decreases n, memory
  {
    if n == 0 then Data([])
    else
      match Word(memory, addr)
      case None => Failed(Unreadable(addr))
      case Some(w) =>
        match ReadWords(memory, Sum32(addr, 4), n - 1)
        case Failed(f) => Failed(f)
        case Data(rest) => Data(BytesOf(w) + rest)
  }

  /** The first instructions of an entry, and the words that hold the others. */
  function Assemble(memory: Memory, first: seq<byte>, addr: word, n: nat): Extracted {
    if n > 5 then Failed(Malformed)
    else
      match ReadWords(memory, addr, n)
      case Failed(f) => Failed(f)
      case Data(rest) => Data(Padded(first + rest))
  }

  /** An entry of the exception-handling table. */
  function ExtractTable(memory: Memory, addr: word): Extracted {
    match Word(memory, addr)
    case None => Failed(Unreadable(addr))
    case Some(w) =>
      var b := BytesOf(w);
      if w >= 0x8000_0000 then
        (match b[0] % 16
         case 0 => Assemble(memory, b[1..], addr, 0)
         case 1 => Assemble(memory, b[2..], Sum32(addr, 4), b[1])
         case 2 => Assemble(memory, b[2..], Sum32(addr, 4), b[1])
         case _ => Failed(InvalidPersonality))
      else
        match Word(memory, Sum32(addr, 4))
        case None => Failed(Unreadable(Sum32(addr, 4)))
        case Some(h) => Assemble(memory, BytesOf(h)[1..], Sum32(addr, 8), BytesOf(h)[0])
  }

  /** An entry of the index table. */
  function Extract(memory: Memory, entry: word): Extracted {
    if entry % 2 == 1 then Failed(InvalidAlignment)
    else
      match Word(memory, Sum32(entry, 4))
      case None => Failed(Unreadable(Sum32(entry, 4)))
      case Some(w) =>
        if w == 1 then Failed(CannotUnwind)
        else if w >= 0x8000_0000 then
          (if BytesOf(w)[0] % 16 != 0 then Failed(InvalidPersonality) else Data(Padded(BytesOf(w)[1..])))
        else ExtractTable(memory, Prel31(Sum32(entry, 4), w))
  }

  // ---------------------------------------------------------------------------
  // Placing instructions in an entry

  /** The memory holds these bytes as words from `addr` on. */
  ghost predicate HasCode(memory: Memory, addr: word, code: seq<byte>)
    decreases |code|, memory
  {
    code == [] || (
      && |code| >= 4 && Word(memory, addr).Some? && BytesOf(Word(memory, addr).value) == code[..4]
      && HasCode(memory, Sum32(addr, 4), code[4..]))
  }

  /** The ways an index table entry can hold instructions. */
  datatype Form =
    | Inline                  // in the entry itself
    | Short(addr: word)       // a table entry with personality 0
    | Long(addr: word, personality: nat)  // personality 1 or 2
    | Generic(addr: word)     // with a personality routine of its own

  /** The second word of the entry leads to the table entry at `addr`. */
  predicate PointsTo(entry: word, w: word, addr: word) {
    w != 1 && w < 0x8000_0000 && Prel31(Sum32(entry, 4), w) == addr
  }

  /** The entry at `entry` holds `code` in this form. */
  ghost predicate Placed(memory: Memory, entry: word, form: Form, code: seq<byte>) {
    && entry % 2 == 0 && Word(memory, Sum32(entry, 4)).Some?
    && var w := Word(memory, Sum32(entry, 4)).value;
       match form
       case Inline => |code| == 3 && BytesOf(w) == [0x80] + code
       case Short(addr) => PointsTo(entry, w, addr) && ShortAt(memory, addr, code)
       case Long(addr, p) => PointsTo(entry, w, addr) && LongAt(memory, addr, p, code)
       case Generic(addr) => PointsTo(entry, w, addr) && GenericAt(memory, addr, code)
  }

  ghost predicate ShortAt(memory: Memory, addr: word, code: seq<byte>) {
    |code| == 3 && HasCode(memory, addr, [0x80] + code)
  }

  ghost predicate LongAt(memory: Memory, addr: word, personality: nat, code: seq<byte>) {
    && 1 <= personality <= 2 && 2 <= |code| <= 22 && (|code| - 2) % 4 == 0
    && HasCode(memory, addr, [0x80 + personality, (|code| - 2) / 4] + code)
  }

  ghost predicate GenericAt(memory: Memory, addr: word, code: seq<byte>) {
    && Word(memory, addr).Some? && Word(memory, addr).value < 0x8000_0000
    && 3 <= |code| <= 23 && (|code| - 3) % 4 == 0
    && HasCode(memory, Sum32(addr, 4), [(|code| - 3) / 4] + code)
  }

  lemma {:induction false} ReadsCode(memory: Memory, addr: word, code: seq<byte>, n: nat)
    requires HasCode(memory, addr, code) && |code| == 4 * n
    ensures ReadWords(memory, addr, n) == Data(code)
    decreases n
  {
    if n > 0 {
      ReadsCode(memory, Sum32(addr, 4), code[4..], n - 1);
      assert code == code[..4] + code[4..];
    }
  }

  /** The top bit tells the compact forms. */
  lemma TopByte(w: word)
    ensures w >= 0x8000_0000 <==> BytesOf(w)[0] >= 0x80
  {
  }

  lemma ShortExtracts(memory: Memory, addr: word, code: seq<byte>)
    requires ShortAt(memory, addr, code)
    ensures ExtractTable(memory, addr) == Data(Padded(code))
  {
    var b := BytesOf(Word(memory, addr).value);
    TopByte(Word(memory, addr).value);
    assert b == ([0x80] + code)[..4] == [0x80] + code;
    assert b[0] == 0x80;
    assert b[1..] == code && code + [] == code;
  }

  /** The first word of an entry with personality 1 or 2, and the words after it. */
  lemma LongBytes(personality: nat, count: nat, code: seq<byte>)
    requires personality <= 2 && count <= 5 && |code| >= 2
    ensures ([0x80 + personality, count] + code)[..4] == [0x80 + personality, count, code[0], code[1]]
    ensures ([0x80 + personality, count] + code)[4..] == code[2..]
    ensures [0x80 + personality, count, code[0], code[1]][2..] + code[2..] == code
  {
  }

  lemma LongExtracts(memory: Memory, addr: word, personality: nat, code: seq<byte>)
    requires LongAt(memory, addr, personality, code)
    ensures ExtractTable(memory, addr) == Data(Padded(code))
  {
    var count := (|code| - 2) / 4;
    LongBytes(personality, count, code);
    ReadsCode(memory, Sum32(addr, 4), code[2..], count);
    LongAssembles(memory, addr, personality, count, code);
  }

  lemma LongAssembles(memory: Memory, addr: word, personality: nat, count: nat, code: seq<byte>)
    requires 1 <= personality <= 2 && count <= 5 && |code| >= 2 && Word(memory, addr).Some?
    requires BytesOf(Word(memory, addr).value) == [0x80 + personality, count, code[0], code[1]]
    requires ReadWords(memory, Sum32(addr, 4), count) == Data(code[2..])
    ensures ExtractTable(memory, addr) == Data(Padded(code))
  {
    TopByte(Word(memory, addr).value);
    LongBytes(personality, count, code);
  }

  lemma GenericExtracts(memory: Memory, addr: word, code: seq<byte>)
    requires GenericAt(memory, addr, code)
    ensures ExtractTable(memory, addr) == Data(Padded(code))
  {
    var all := [(|code| - 3) / 4] + code;
    var b := BytesOf(Word(memory, Sum32(addr, 4)).value);
    assert b == all[..4];
    assert b[1..] == code[..3];
    assert all[4..] == code[3..];
    assert Sum32(Sum32(addr, 4), 4) == Sum32(addr, 8);
    ReadsCode(memory, Sum32(addr, 8), code[3..], (|code| - 3) / 4);
    GenericAssembles(memory, addr, (|code| - 3) / 4, code);
  }

  lemma GenericAssembles(memory: Memory, addr: word, count: nat, code: seq<byte>)
    requires Word(memory, addr).Some? && Word(memory, addr).value < 0x8000_0000
    requires |code| >= 3 && count <= 5 && Word(memory, Sum32(addr, 4)).Some?
    requires BytesOf(Word(memory, Sum32(addr, 4)).value)[1..] == code[..3]
    requires BytesOf(Word(memory, Sum32(addr, 4)).value)[0] == count
    requires ReadWords(memory, Sum32(addr, 8), count) == Data(code[3..])
    ensures ExtractTable(memory, addr) == Data(Padded(code))
  {
    assert code[..3] + code[3..] == code;
  }

  /** From every form of entry the instructions come back in order, with a finish at the end. */
  lemma ExtractGivesCode(memory: Memory, entry: word, form: Form, code: seq<byte>)
    requires Placed(memory, entry, form, code)
    ensures Extract(memory, entry) == Data(Padded(code))
  {
    match form
    case Inline =>
      var w := Word(memory, Sum32(entry, 4)).value;
      assert BytesOf(w)[0] == 0x80 && BytesOf(w)[1..] == code;
    case Short(addr) => ShortExtracts(memory, addr, code);
    case Long(addr, p) => LongExtracts(memory, addr, p, code);
    case Generic(addr) => GenericExtracts(memory, addr, code);
  }

  /** The situation of a frame: its function's prologue has run, its body has kept what was
      saved, and `s` has the stack pointer. */
  ghost predicate InBody(ps: seq<Save>, cpus: seq<Cpu>, memory: Memory, s: State)
    requires AllEncodable(ps)
  {
    && RunsPrologue(ps, cpus) && s.cfa == cpus[|ps|].sp
    && KeepsSaved(ps, cpus, memory)
  }

  /** Unwinding a frame from the index table entry of its function to the caller's registers: the
      entry holds the code of the prologue, a finish, and any filling. */
  lemma UnwindsFrame(elf: Memory, entry: word, form: Form, filler: seq<byte>,
                     ps: seq<Save>, cpus: seq<Cpu>, memory: Memory, s: State)
    requires AllEncodable(ps) && Placed(elf, entry, form, Code(ps) + ([FINISH] + filler)) && InBody(ps, cpus, memory, s)
    ensures Extract(elf, entry).Data?
    ensures var r := Eval(memory, s.(data := Extract(elf, entry).bytes));
      r.status == Finish && Unwound(ps, cpus[0], s, r.state)
  {
    var code := Code(ps) + ([FINISH] + filler);
    ExtractGivesCode(elf, entry, form, code);
    var tail := if Padded(code) == code then filler else filler + [FINISH];
    assert Padded(code) == Code(ps) + ([FINISH] + tail);
    EvalRestoresCaller(ps, cpus, memory, s.(data := Padded(code)), tail);
  }

  /** When the code fills its entry the finish is implicit. It is supplied exactly when the last
      byte does not look like one; where that byte is an operand the frame is not unwound. */
  lemma ImplicitFinishExactly(elf: Memory, entry: word, form: Form,
                              ps: seq<Save>, cpus: seq<Cpu>, memory: Memory, s: State)
    requires AllEncodable(ps) && Placed(elf, entry, form, Code(ps)) && InBody(ps, cpus, memory, s) && Code(ps) != []
    ensures Extract(elf, entry).Data?
    ensures
      var r := Eval(memory, s.(data := Extract(elf, entry).bytes));
      if Code(ps)[|Code(ps)| - 1] != FINISH then r.status == Finish && Unwound(ps, cpus[0], s, r.state)
      else r.status == Truncated
  {
    ExtractGivesCode(elf, entry, form, Code(ps));
    ImplicitFinish(ps, cpus, memory, s.(data := Padded(Code(ps))), Code(ps)[|Code(ps)| - 1]);
  }

  lemma ImplicitFinish(ps: seq<Save>, cpus: seq<Cpu>, memory: Memory, s: State, last: byte)
    requires AllEncodable(ps) && InBody(ps, cpus, memory, s)
    requires s.data == if last != FINISH then Code(ps) + [FINISH] else Code(ps)
    ensures
      var r := Eval(memory, s);
      if last != FINISH then r.status == Finish && Unwound(ps, cpus[0], s, r.state) else r.status == Truncated
  {
    if last != FINISH {
      FinishIsSupplied(ps, cpus, memory, s);
    } else {
      EvalWithoutFinish(ps, cpus, memory, s);
    }
  }

  lemma FinishIsSupplied(ps: seq<Save>, cpus: seq<Cpu>, memory: Memory, s: State)
    requires AllEncodable(ps) && InBody(ps, cpus, memory, s) && s.data == Code(ps) + [FINISH]
    ensures var r := Eval(memory, s); r.status == Finish && Unwound(ps, cpus[0], s, r.state)
  {
    assert [FINISH] + [] == [FINISH];
    EvalRestoresCaller(ps, cpus, memory, s, []);
  }

  /** A prologue whose code ends with an operand that looks like a finish: a push of d11. */
  lemma OperandLooksLikeFinish()
    ensures AllEncodable([SaveVfp(11, 0)]) && Code([SaveVfp(11, 0)]) == [0xc9, FINISH]
  {
    var ps := [SaveVfp(11, 0)];
    assert ps[..0] == [] && Code(ps[..0]) == [];
  }

  // ---------------------------------------------------------------------------
  // The reader itself

  ghost function Prefixed(bytes: seq<byte>, r: Extracted): Extracted {
    match r
    case Data(rest) => Data(bytes + rest)
    case Failed(f) => Failed(f)
  }

  lemma PrefixedTwice(a: seq<byte>, b: seq<byte>, r: Extracted)
    ensures Prefixed(a, Prefixed(b, r)) == Prefixed(a + b, r)
  {
    if r.Data? {
      assert a + (b + r.bytes) == a + b + r.bytes;
    }
  }

  class EntryReader {
    const memory: Memory
    var data: seq<byte>
    var failure: Option<Failure>

    constructor (memory: Memory)
      ensures this.memory == memory
    {
      this.memory, data, failure := memory, [], None;
    }

    /** Appends the `n` words from `addr` on. */
    method AppendWords(addr: word, n: nat) returns (ok: bool)
      modifies this
      ensures
        match ReadWords(memory, addr, n)
        case Data(rest) => ok && data == old(data) + rest && failure == old(failure)
        case Failed(f) => !ok && failure == Some(f)
    {
      var i, at := 0, addr;
      ghost var read: seq<byte> := [];
      while i < n
        invariant 0 <= i <= n && data == old(data) + read && failure == old(failure)
        invariant ReadWords(memory, addr, n) == Prefixed(read, ReadWords(memory, at, n - i))
      {
        var w := Word(memory, at);
        if w.None? {
          failure := Some(Unreadable(at));
          return false;
        }
        PrefixedTwice(read, BytesOf(w.value), ReadWords(memory, Sum32(at, 4), n - i - 1));
        data := data + BytesOf(w.value);
        read := read + BytesOf(w.value);
        at := Sum32(at, 4);
        i := i + 1;
      }
      assert read + [] == read;
      return true;
    }

    method Fail(f: Failure) returns (ok: bool)
      modifies this
      ensures !ok && failure == Some(f)
    {
      failure := Some(f);
      return false;
    }

    /** The bytes that follow the first ones, and the closing finish. */
    method Complete(addr: word, n: nat) returns (ok: bool)
      requires data != []
      modifies this
      ensures
        match Assemble(memory, old(data), addr, n)
        case Data(bytes) => ok && data == bytes
        case Failed(f) => !ok && failure == Some(f)
    {
      if n > 5 {
        ok := Fail(Malformed);
        return;
      }
      ok := AppendWords(addr, n);
      if ok && data[|data| - 1] != FINISH {
        data := data + [FINISH];
      }
    }

    method ReadTable(addr: word) returns (ok: bool)
      modifies this
      ensures
        match ExtractTable(memory, addr)
        case Data(bytes) => ok && data == bytes
        case Failed(f) => !ok && failure == Some(f)
    {
      var w := Word(memory, addr);
      if w.None? {
        ok := Fail(Unreadable(addr));
        return;
      }
      var b := BytesOf(w.value);
      if w.value >= 0x8000_0000 {
        var personality := b[0] % 16;
        if personality == 0 {
          data := b[1..];
          ok := Complete(addr, 0);
        } else if personality <= 2 {
          data := b[2..];
          ok := Complete(Sum32(addr, 4), b[1]);
        } else {
          ok := Fail(InvalidPersonality);
        }
        return;
      }
      var header := Word(memory, Sum32(addr, 4));
      if header.None? {
        ok := Fail(Unreadable(Sum32(addr, 4)));
        return;
      }
      data := BytesOf(header.value)[1..];
      ok := Complete(Sum32(addr, 8), BytesOf(header.value)[0]);
    }

    method ExtractEntryData(entry: word) returns (ok: bool)
      modifies this
      ensures
        match Extract(memory, entry)
        case Data(bytes) => ok && data == bytes
        case Failed(f) => !ok && failure == Some(f)
    {
      data, failure := [], None;
      if entry % 2 == 1 {
        ok := Fail(InvalidAlignment);
        return;
      }
      var w := Word(memory, Sum32(entry, 4));
      if w.None? {
        ok := Fail(Unreadable(Sum32(entry, 4)));
      } else if w.value == 1 {
        ok := Fail(CannotUnwind);
      } else if w.value >= 0x8000_0000 {
        var b := BytesOf(w.value);
        if b[0] % 16 != 0 {
          ok := Fail(InvalidPersonality);
        } else {
          data := b[1..];
          if b[3] != FINISH {
            data := data + [FINISH];
          }
          ok := true;
        }
      } else {
        ok := ReadTable(Prel31(Sum32(entry, 4), w.value));
      }
    }
  }
}
