/** A model of the direct-mapped, write-back cache of cachemodel.c: 128 lines of
    16 bytes over a 24-bit byte address space, with one tag and one dirty flag per
    line and no valid bit. The pure part (address decoding, the abstract line
    state and the effect of one access) is stated as functions; the arrays the
    source updates in place live in the class `Cache`, whose methods are proved
    against those functions. */
module CacheModel {

  type Byte = bv8

  const LINE_COUNT: nat := 128
  const LINE_SIZE: nat := 16
  /** Number of distinct tags: the 13 address bits above the line index. */
  const TAG_COUNT: nat := 0x2000
  /** Size of the 24-bit address space. */
  const ADDRESS_SPACE: nat := 0x100_0000

  /** A byte address of the 24-bit space (4-bit offset, 7-bit line, 13-bit tag).
      Negative addresses are excluded: shifting them right is implementation-defined in C. */
  type Address = a: int | 0 <= a < 0x100_0000

  // ---------------------------------------------------------------------------
  // Address decoding. For a non-negative int, `a >> k` is `a / 2^k` and
  // `a & (2^k - 1)` is `a % 2^k`.

  /** `(address >> 4) & 0x7f`: the cache line an address maps to. */
  function LineIndex(a: Address): (line: nat)
    ensures line < LINE_COUNT
  {
    (a / 16) % 128
  }

  /** `address & 0xf`: the byte within the line. */
  function Offset(a: Address): (offset: nat)
    ensures offset < LINE_SIZE
  {
    a % 16
  }

  /** `address >> 11`: the tag compared against `validate[line]`. */
  function Tag(a: Address): (tag: nat)
    ensures tag < TAG_COUNT
  {
    a / 2048
  }

  /** The address whose tag, line index and offset are the given ones. */
  function Compose(tag: nat, line: nat, offset: nat): (a: Address)
    requires tag < TAG_COUNT && line < LINE_COUNT && offset < LINE_SIZE
  {
    tag * 2048 + line * 16 + offset
  }

  /** Decoding an address and putting the three fields back together gives the
      address again: the three fields split the 24 bits without overlap or gap. */
  lemma ComposeDecode(a: Address)
    ensures Compose(Tag(a), LineIndex(a), Offset(a)) == a
  {
    var q := a / 16;
    assert a == q * 16 + a % 16;
    assert q == (q / 128) * 128 + q % 128;
    assert q / 128 == a / 2048;
  }

  /** Decoding a composed address gives back each of its fields. */
  lemma DecodeCompose(tag: nat, line: nat, offset: nat)
    requires tag < TAG_COUNT && line < LINE_COUNT && offset < LINE_SIZE
    ensures var a := Compose(tag, line, offset);
      Tag(a) == tag && LineIndex(a) == line && Offset(a) == offset
  {
    var q := tag * 128 + line;
    assert (tag * 2048 + line * 16 + offset) / 16 == q;
    assert q % 128 == line && q / 128 == tag;
  }

  /** Two addresses with the same tag and the same line index lie in the same
      16-byte block: a tag match identifies the resident block exactly. */
  lemma SameTagAndLineSameBlock(a: Address, b: Address)
    requires Tag(a) == Tag(b) && LineIndex(a) == LineIndex(b)
    ensures a / 16 == b / 16
    ensures Offset(a) == Offset(b) ==> a == b
  {
    ComposeDecode(a);
    ComposeDecode(b);
  }

  // ---------------------------------------------------------------------------
  // Abstract state of the cache and the events of a miss.

  /** One line: `cached_data[line]`, `validate[line]` and `dirty[line]`. */
  datatype LineState = LineState(bytes: seq<Byte>, tag: int, dirty: bool)

  /** Calls the controller makes to code outside the model, in order:
      `halt_cpu`, `store_to_sdram`, `load_from_sdram`, `restart_cpu`. */
  datatype Event =
    | Halt
    | Store(address: Address, bytes: seq<Byte>)
    | Load(address: Address)
    | Restart

  /** 128 lines of 16 bytes, each tag within 13 bits. */
  ghost predicate WellFormed(lines: seq<LineState>)
  {
    |lines| == LINE_COUNT &&
    forall i :: 0 <= i < |lines| ==> |lines[i].bytes| == LINE_SIZE && 0 <= lines[i].tag < TAG_COUNT
  }

  /** The zero-initialised globals at program start: every byte 0, every tag 0,
      every line clean. There is no valid bit, so tag 0 looks resident everywhere. */
  function ColdStart(): (lines: seq<LineState>)
    ensures WellFormed(lines)
    ensures forall i :: 0 <= i < |lines| ==>
      lines[i].bytes == seq(LINE_SIZE, _ => 0) && lines[i].tag == 0 && !lines[i].dirty
  {
    seq(LINE_COUNT, _ => LineState(seq(LINE_SIZE, _ => 0), 0, false))
  }

  /** The tag comparison of both entry points. */
  ghost predicate Hit(lines: seq<LineState>, a: Address)
    requires WellFormed(lines)
  {
    lines[LineIndex(a)].tag == Tag(a)
  }

  /** The calls a miss on address `a` makes while `line` is the resident line:
      halt, a writeback of the whole line only if it is dirty, a load, and a
      restart. Both the writeback and the load are given the requesting
      address, not one rebuilt from the evicted tag. */
  function MissEvents(line: LineState, a: Address): (events: seq<Event>)
    ensures |events| == if line.dirty then 4 else 3
    ensures events[0] == Halt && events[|events| - 1] == Restart
    ensures events[|events| - 2] == Load(a)
    ensures line.dirty ==> events[1] == Store(a, line.bytes)
    ensures Occurrences(events, Halt) == 1 && Occurrences(events, Restart) == 1
    ensures Occurrences(events, Load(a)) == 1
  {
    var events := [Halt] + (if line.dirty then [Store(a, line.bytes)] else []) + [Load(a), Restart];
    OccurrencesOfMiss(line, a, Halt);
    OccurrencesOfMiss(line, a, Restart);
    OccurrencesOfMiss(line, a, Load(a));
    events
  }

  /** How many times `e` appears in `events`. */
  function Occurrences(events: seq<Event>, e: Event): (n: nat)
  {
    if events == [] then 0
    else (if events[0] == e then 1 else 0) + Occurrences(events[1..], e)
  }

  /** Counting distributes over concatenation. */
  lemma {:induction false} OccurrencesAppend(s: seq<Event>, t: seq<Event>, e: Event)
    ensures Occurrences(s + t, e) == Occurrences(s, e) + Occurrences(t, e)
  {
    if s == [] {
      assert s + t == t;
    } else {
      assert (s + t)[1..] == s[1..] + t;
      OccurrencesAppend(s[1..], t, e);
    }
  }

  /** Each of halt, restart and the load occurs once in a miss; a store is the
      only event with bytes, so it never collides with them. */
  lemma OccurrencesOfMiss(line: LineState, a: Address, e: Event)
    requires e == Halt || e == Restart || e == Load(a)
    ensures var events := [Halt] + (if line.dirty then [Store(a, line.bytes)] else []) + [Load(a), Restart];
      Occurrences(events, e) == 1
  {
    var store := if line.dirty then [Store(a, line.bytes)] else [];
    OccurrencesAppend([Halt] + store, [Load(a), Restart], e);
    OccurrencesAppend([Halt], store, e);
    OccurrencesAppend([Load(a)], [Restart], e);
    assert Occurrences(store, e) == 0 by {
      if line.dirty {
        assert store[1..] == [];
      }
    }
    assert [Halt][1..] == [] && [Load(a)][1..] == [] && [Restart][1..] == [];
  }

  // ---------------------------------------------------------------------------
  // One access, as a function of the state before it.

  /** What `read_mem` returns, the lines after it and the calls it makes. */
  datatype ReadOutcome = ReadOutcome(value: Byte, lines: seq<LineState>, events: seq<Event>)

  /** What `write_mem` leaves behind and the calls it makes. */
  datatype WriteOutcome = WriteOutcome(lines: seq<LineState>, events: seq<Event>)

  /** `read_mem(a)`, where `fill` stands for the 16 bytes `load_from_sdram`
      would deliver on a miss. */
  function ReadStep(lines: seq<LineState>, a: Address, fill: seq<Byte>): (r: ReadOutcome)
    requires WellFormed(lines) && |fill| == LINE_SIZE
    ensures WellFormed(r.lines)
    // only the line selected by the address is touched
    ensures forall i :: 0 <= i < LINE_COUNT && i != LineIndex(a) ==> r.lines[i] == lines[i]
    // the byte returned is the one now resident at the address, and the address is resident
    ensures Hit(r.lines, a) && r.value == r.lines[LineIndex(a)].bytes[Offset(a)]
    // a hit returns the cached byte and changes nothing
    ensures Hit(lines, a) ==>
      r.value == lines[LineIndex(a)].bytes[Offset(a)] && r.lines == lines && r.events == []
    // a miss reloads the line clean under the new tag, after the miss protocol
    ensures !Hit(lines, a) ==>
      r.lines[LineIndex(a)] == LineState(fill, Tag(a), false) &&
      r.value == fill[Offset(a)] &&
      r.events == MissEvents(lines[LineIndex(a)], a)
  {
    var line := LineIndex(a);
    if lines[line].tag == Tag(a) then
      ReadOutcome(lines[line].bytes[Offset(a)], lines, [])
    else
      var loaded := lines[line := LineState(fill, Tag(a), false)];
      ReadOutcome(fill[Offset(a)], loaded, MissEvents(lines[line], a))
  }

  /** `write_mem(a, wdata)`, where `fill` stands for the 16 bytes
      `load_from_sdram` would deliver on a miss. */
  function WriteStep(lines: seq<LineState>, a: Address, wdata: Byte, fill: seq<Byte>): (r: WriteOutcome)
    requires WellFormed(lines) && |fill| == LINE_SIZE
    ensures WellFormed(r.lines)
    // only the line selected by the address is touched
    ensures forall i :: 0 <= i < LINE_COUNT && i != LineIndex(a) ==> r.lines[i] == lines[i]
    // afterwards the address is resident and holds the written byte
    ensures Hit(r.lines, a) && r.lines[LineIndex(a)].bytes[Offset(a)] == wdata
    // a hit changes exactly one byte; tag and dirty flag stay as they were
    ensures Hit(lines, a) ==>
      r.events == [] &&
      r.lines[LineIndex(a)] == lines[LineIndex(a)].(bytes := lines[LineIndex(a)].bytes[Offset(a) := wdata])
    // a miss fetches the whole line, overwrites one byte of it and marks the line dirty
    ensures !Hit(lines, a) ==>
      r.lines[LineIndex(a)] == LineState(fill[Offset(a) := wdata], Tag(a), true) &&
      r.events == MissEvents(lines[LineIndex(a)], a)
  {
    var line := LineIndex(a);
    if lines[line].tag == Tag(a) then
      WriteOutcome(lines[line := lines[line].(bytes := lines[line].bytes[Offset(a) := wdata])], [])
    else
      var loaded := LineState(fill[Offset(a) := wdata], Tag(a), true);
      WriteOutcome(lines[line := loaded], MissEvents(lines[line], a))
  }

  // ---------------------------------------------------------------------------
  // Properties relating several accesses.

  /** Reading an address right after writing it hits, returns the written byte
      and changes nothing, whatever the write had to load. */
  lemma ReadAfterWrite(lines: seq<LineState>, a: Address, v: Byte, fill: seq<Byte>, fill': seq<Byte>)
    requires WellFormed(lines) && |fill| == LINE_SIZE && |fill'| == LINE_SIZE
    ensures var w := WriteStep(lines, a, v, fill);
      ReadStep(w.lines, a, fill') == ReadOutcome(v, w.lines, [])
  {
  }

  /** Reading the same address twice: the second read hits, returns the same
      byte and changes nothing. */
  lemma RepeatedRead(lines: seq<LineState>, a: Address, fill: seq<Byte>, fill': seq<Byte>)
    requires WellFormed(lines) && |fill| == LINE_SIZE && |fill'| == LINE_SIZE
    ensures var r := ReadStep(lines, a, fill);
      ReadStep(r.lines, a, fill') == ReadOutcome(r.value, r.lines, [])
  {
  }

  /** A write hit on a clean line leaves it clean: a later eviction of that
      line writes nothing back. */
  lemma WriteHitKeepsLineClean(lines: seq<LineState>, a: Address, v: Byte, fill: seq<Byte>)
    requires WellFormed(lines) && |fill| == LINE_SIZE
    requires Hit(lines, a) && !lines[LineIndex(a)].dirty
    ensures !WriteStep(lines, a, v, fill).lines[LineIndex(a)].dirty
  {
  }

  /** An access touches only its own line: accesses to addresses on different
      lines commute, in their effect on the lines. */
  lemma DistinctLinesCommute(lines: seq<LineState>, a: Address, b: Address, v: Byte, w: Byte,
                                                fa: seq<Byte>, fb: seq<Byte>)
    requires WellFormed(lines) && |fa| == LINE_SIZE && |fb| == LINE_SIZE
    requires LineIndex(a) != LineIndex(b)
    ensures WriteStep(WriteStep(lines, a, v, fa).lines, b, w, fb).lines ==
            WriteStep(WriteStep(lines, b, w, fb).lines, a, v, fa).lines
  {
  }

  /** The writeback of a dirty line on a miss is addressed with the requesting
      address, whose tag is the new one and never the evicted line's tag. */
  lemma WritebackGoesToRequestedRegion(lines: seq<LineState>, a: Address, fill: seq<Byte>)
    requires WellFormed(lines) && |fill| == LINE_SIZE
    requires !Hit(lines, a) && lines[LineIndex(a)].dirty
    ensures var st := ReadStep(lines, a, fill).events[1];
      st == Store(a, lines[LineIndex(a)].bytes) && Tag(st.address) != lines[LineIndex(a)].tag
  {
  }

  /** With no valid bit, at cold start exactly the addresses below 0x800 (tag 0)
      hit, without any load. */
  lemma ColdStartHits(a: Address)
    ensures Hit(ColdStart(), a) <==> a < 0x800
  {
  }

  /** At cold start a read below 0x800 hits the zero-initialised bytes: it
      returns 0, changes nothing and makes no calls. */
  lemma ColdStartReadsZero(a: Address, fill: seq<Byte>)
    requires a < 0x800 && |fill| == LINE_SIZE
    ensures ReadStep(ColdStart(), a, fill) == ReadOutcome(0, ColdStart(), [])
  {
    ColdStartHits(a);
  }

  /** Cold start, write to address 0: it hits, so nothing is loaded and the line
      stays clean; a write to 0x800 then evicts line 0 without a writeback, so
      the first byte written never reaches the backing store. */
  lemma ColdStartWriteIsNeverWrittenBack(v: Byte, w: Byte, fill: seq<Byte>, fill': seq<Byte>)
    requires |fill| == LINE_SIZE && |fill'| == LINE_SIZE
    ensures var first := WriteStep(ColdStart(), 0, v, fill);
      var second := WriteStep(first.lines, 0x800, w, fill');
      first.events == [] && first.lines[0].bytes[0] == v && !first.lines[0].dirty &&
      second.events == [Halt, Load(0x800), Restart]
  {
  }

  // ---------------------------------------------------------------------------
  // The global arrays, updated in place.

  /** `cached_data`, `validate` and `dirty`, with the abstract view `Contents`
      and the ghost `Trace` of calls made to code outside the model. */
  class Cache {
    var data: array2<Byte>
    var validate: array<int>
    var dirty: array<bool>

    ghost var Contents: seq<LineState>
    ghost var Trace: seq<Event>

    /** The arrays have the source's dimensions and `Contents` is their value. */
    ghost predicate Valid()
      reads this, data, validate, dirty
    {
      data.Length0 == LINE_COUNT && data.Length1 == LINE_SIZE &&
      validate.Length == LINE_COUNT && dirty.Length == LINE_COUNT &&
      WellFormed(Contents) &&
      (forall i :: 0 <= i < LINE_COUNT ==> Contents[i].tag == validate[i] && Contents[i].dirty == dirty[i]) &&
      (forall i, j :: 0 <= i < LINE_COUNT && 0 <= j < LINE_SIZE ==> Contents[i].bytes[j] == data[i, j])
    }

    /** The zero-initialised globals. */
    constructor ()
      ensures Valid() && Contents == ColdStart() && Trace == []
      ensures fresh(data) && fresh(validate) && fresh(dirty)
    {
      data := new Byte[LINE_COUNT, LINE_SIZE]((_, _) => 0);
      validate := new int[LINE_COUNT](_ => 0);
      dirty := new bool[LINE_COUNT](_ => false);
      Contents := ColdStart();
      Trace := [];
    }

    /** `load_from_sdram (cached_data[line], address)`: the 16 bytes delivered
        replace row `line`; every other row is unchanged. */
    method LoadLine(line: nat, fill: seq<Byte>)
      requires line < LINE_COUNT && |fill| == LINE_SIZE
      requires data.Length0 == LINE_COUNT && data.Length1 == LINE_SIZE
      modifies data
      ensures forall i, j :: 0 <= i < LINE_COUNT && 0 <= j < LINE_SIZE ==>
        data[i, j] == if i == line then fill[j] else old(data[i, j])
    {
      for j := 0 to LINE_SIZE
        invariant forall i, k :: 0 <= i < LINE_COUNT && 0 <= k < LINE_SIZE ==>
          data[i, k] == if i == line && k < j then fill[k] else old(data[i, k])
      {
        data[line, j] := fill[j];
      }
    }

    /** `read_mem`: the returned byte, the new lines and the calls made are
        those of `ReadStep`. */
    method Read(a: Address, fill: seq<Byte>) returns (value: Byte)
      requires Valid() && |fill| == LINE_SIZE
      modifies this`Contents, this`Trace, data, validate, dirty
      ensures Valid()
      ensures value == ReadStep(old(Contents), a, fill).value
      ensures Contents == ReadStep(old(Contents), a, fill).lines
      ensures Trace == old(Trace) + ReadStep(old(Contents), a, fill).events
    {
      var line := LineIndex(a);
      var optimistic := data[line, Offset(a)];
      var validBits := validate[line];
      if Tag(a) == validBits {
        return optimistic;
      }
      ghost var resident := Contents[line];
      Trace := Trace + [Halt];
      if dirty[line] {
        Trace := Trace + [Store(a, resident.bytes)];
      }
      Trace := Trace + [Load(a)];
      LoadLine(line, fill);
      validate[line] := Tag(a);
      dirty[line] := false;
      Contents := Contents[line := LineState(fill, Tag(a), false)];
      Trace := Trace + [Restart];
      value := data[line, Offset(a)];
    }

    /** `write_mem`: the new lines and the calls made are those of `WriteStep`. */
    method Write(a: Address, wdata: Byte, fill: seq<Byte>)
      requires Valid() && |fill| == LINE_SIZE
      modifies this`Contents, this`Trace, data, validate, dirty
      ensures Valid()
      ensures Contents == WriteStep(old(Contents), a, wdata, fill).lines
      ensures Trace == old(Trace) + WriteStep(old(Contents), a, wdata, fill).events
    {
      var line := LineIndex(a);
      var validBits := validate[line];
      if Tag(a) == validBits {
        data[line, Offset(a)] := wdata;
        Contents := Contents[line := Contents[line].(bytes := Contents[line].bytes[Offset(a) := wdata])];
        return;
      }
      ghost var resident := Contents[line];
      Trace := Trace + [Halt];
      if dirty[line] {
        Trace := Trace + [Store(a, resident.bytes)];
      }
      Trace := Trace + [Load(a)];
      LoadLine(line, fill);
      validate[line] := Tag(a);
      data[line, Offset(a)] := wdata;
      dirty[line] := true;
      Contents := Contents[line := LineState(fill[Offset(a) := wdata], Tag(a), true)];
      Trace := Trace + [Restart];
    }
  }
}
