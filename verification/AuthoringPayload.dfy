/** The authoring profile of workspace_authoring_profile.c: a fixed 16-byte payload and a table
    of 12-byte module requirements, little-endian, in two chunks of one container. */
module AuthoringPayload {

  newtype byte = x: int | 0 <= x < 256

  type uint16 = x: int | 0 <= x < 0x1_0000 witness 0
  type uint32 = x: int | 0 <= x < 0x1_0000_0000 witness 0

  const PAYLOAD_SIZE: nat := 16
  const REQUIREMENT_SIZE: nat := 12
  const REQUIREMENT_COUNT: nat := 7
  const ICON_COUNT: nat := 7
  const SCHEMA_MAJOR: uint16 := 1
  const SCHEMA_MINOR: uint16 := 0

  /** `activeTool` is the C enum's integer value. */
  datatype Projection = Projection(toolPanel: bool, controlPanel: bool, terminal: bool, activeTool: int)

  datatype Requirement = Requirement(typeId: uint32, minMajor: uint16, minMinor: uint16,
                                     stateMajor: uint16, stateMinor: uint16)

  datatype Chunks = Chunks(payload: seq<byte>, requirements: seq<byte>)

  datatype Outcome<+T> = Done(value: T) | InvalidArg | Container | Schema | Requirements | BadProjection

  predicate Valid(p: Projection) {
    0 <= p.activeTool < ICON_COUNT
  }

  // ---------------------------------------------------------------------------------------
  // Integers as bytes.

  function Bytes16(v: uint16): (s: seq<byte>)
    ensures |s| == 2
  {
    [(v % 0x100) as byte, (v / 0x100) as byte]
  }

  function Bytes32(v: uint32): (s: seq<byte>)
    ensures |s| == 4
  {
    [(v % 0x100) as byte, (v / 0x100 % 0x100) as byte, (v / 0x1_0000 % 0x100) as byte, (v / 0x100_0000) as byte]
  }

  /** The two halves have no bit in common, so the source's bitwise or is a sum. */
  function Get16(s: seq<byte>): uint16
    requires |s| == 2
  {
    s[0] as int + 0x100 * s[1] as int
  }

  function Get32(s: seq<byte>): uint32
    requires |s| == 4
  {
    s[0] as int + 0x100 * s[1] as int + 0x1_0000 * s[2] as int + 0x100_0000 * s[3] as int
  }

  lemma Word16(v: uint16, s: seq<byte>)
    requires |s| == 2
    ensures s == Bytes16(v) <==> Get16(s) == v
  {
  }

  lemma Shifts(v: nat)
    ensures v / 0x100 / 0x100 == v / 0x1_0000
    ensures v / 0x1_0000 / 0x100 == v / 0x100_0000
  {
  }

  lemma LowByte(b: int, q: int)
    requires 0 <= b < 0x100
    ensures (b + 0x100 * q) % 0x100 == b && (b + 0x100 * q) / 0x100 == q
  {
  }

  lemma Word32(v: uint32, s: seq<byte>)
    requires |s| == 4
    ensures s == Bytes32(v) <==> Get32(s) == v
  {
    Shifts(v);
    var b0, b1, b2, b3 := s[0] as int, s[1] as int, s[2] as int, s[3] as int;
    LowByte(b2, b3);
    LowByte(b1, b2 + 0x100 * b3);
    LowByte(b0, b1 + 0x100 * (b2 + 0x100 * b3));
    assert Get32(s) == b0 + 0x100 * (b1 + 0x100 * (b2 + 0x100 * b3));
    if Get32(s) == v {
      assert s == [b0 as byte, b1 as byte, b2 as byte, b3 as byte];
    }
  }

  // ---------------------------------------------------------------------------------------
  // The payload.

  function Flag(b: bool): byte {
    if b then 1 else 0
  }

  /** Three flags and a reserved zero. */
  function FlagBytes(p: Projection): (s: seq<byte>)
    ensures |s| == 4
  {
    [Flag(p.toolPanel), Flag(p.controlPanel), Flag(p.terminal), 0]
  }

  function PayloadOf(p: Projection): (s: seq<byte>)
    requires Valid(p)
    ensures |s| == PAYLOAD_SIZE
  {
    Bytes16(SCHEMA_MAJOR) + Bytes16(SCHEMA_MINOR) +
    FlagBytes(p) + Bytes32(p.activeTool) + Bytes16(REQUIREMENT_COUNT) + Bytes16(0)
  }

  /** The cast to the enum type. A compiler that gives the enum an unsigned type keeps the
      large values instead of wrapping them; both are outside the valid range. */
  function EnumValue(v: uint32): int {
    if v < 0x8000_0000 then v else v - 0x1_0000_0000
  }

  predicate SchemaMatches(s: seq<byte>)
    requires |s| == PAYLOAD_SIZE
  {
    && Get16(s[0..2]) == SCHEMA_MAJOR && Get16(s[2..4]) == SCHEMA_MINOR
    && s[4] <= 1 && s[5] <= 1 && s[6] <= 1 && s[7] == 0
    && Get16(s[12..14]) == REQUIREMENT_COUNT && Get16(s[14..16]) == 0
  }

  function ReadPayload(s: seq<byte>): Outcome<Projection>
    requires |s| == PAYLOAD_SIZE
  {
    if !SchemaMatches(s) then Schema
    else
      var decoded := Projection(s[4] != 0, s[5] != 0, s[6] != 0, EnumValue(Get32(s[8..12])));
      if Valid(decoded) then Done(decoded) else BadProjection
  }

  lemma PayloadFields(p: Projection)
    requires Valid(p)
    ensures var e := PayloadOf(p);
            && e[0..2] == Bytes16(SCHEMA_MAJOR) && e[2..4] == Bytes16(SCHEMA_MINOR)
            && e[4] == Flag(p.toolPanel) && e[5] == Flag(p.controlPanel) && e[6] == Flag(p.terminal) && e[7] == 0
            && e[8..12] == Bytes32(p.activeTool)
            && e[12..14] == Bytes16(REQUIREMENT_COUNT) && e[14..16] == Bytes16(0)
  {
  }

  /** The payload is canonical: what decodes to a projection is exactly that projection's
      encoding, and every valid projection's encoding decodes to it. */
  lemma PayloadIsCanonical(s: seq<byte>, p: Projection)
    requires |s| == PAYLOAD_SIZE
    ensures ReadPayload(s) == Done(p) <==> Valid(p) && s == PayloadOf(p)
  {
    Word16(SCHEMA_MAJOR, s[0..2]);
    Word16(SCHEMA_MINOR, s[2..4]);
    Word16(REQUIREMENT_COUNT, s[12..14]);
    Word16(0, s[14..16]);
    assert s == s[0..2] + s[2..4] + [s[4], s[5], s[6], s[7]] + s[8..12] + s[12..14] + s[14..16];
    if Valid(p) {
      Word32(p.activeTool, s[8..12]);
      PayloadFields(p);
    }
  }

  // ---------------------------------------------------------------------------------------
  // The requirement table.

  function RecordBytes(r: Requirement): (s: seq<byte>)
    ensures |s| == REQUIREMENT_SIZE
  {
    Bytes32(r.typeId) + Bytes16(r.minMajor) + Bytes16(r.minMinor) + Bytes16(r.stateMajor) + Bytes16(r.stateMinor)
  }

  function ReadRecord(s: seq<byte>): Requirement
    requires |s| == REQUIREMENT_SIZE
  {
    Requirement(Get32(s[0..4]), Get16(s[4..6]), Get16(s[6..8]), Get16(s[8..10]), Get16(s[10..12]))
  }

  lemma RecordFields(r: Requirement)
    ensures var e := RecordBytes(r);
            && e[0..4] == Bytes32(r.typeId) && e[4..6] == Bytes16(r.minMajor) && e[6..8] == Bytes16(r.minMinor)
            && e[8..10] == Bytes16(r.stateMajor) && e[10..12] == Bytes16(r.stateMinor)
  {
    var e, last := RecordBytes(r), Bytes16(r.stateMinor);
    assert e[10] == last[0] && e[11] == last[1];
  }

  lemma RecordIsCanonical(s: seq<byte>, r: Requirement)
    requires |s| == REQUIREMENT_SIZE
    ensures ReadRecord(s) == r <==> s == RecordBytes(r)
  {
    Word32(r.typeId, s[0..4]);
    Word16(r.minMajor, s[4..6]);
    Word16(r.minMinor, s[6..8]);
    Word16(r.stateMajor, s[8..10]);
    Word16(r.stateMinor, s[10..12]);
    RecordFields(r);
    assert s == s[0..4] + s[4..6] + s[6..8] + s[8..10] + s[10..12];
  }

  function TableBytes(rs: seq<Requirement>): (s: seq<byte>)
    ensures |s| == REQUIREMENT_SIZE * |rs|
  {
    if rs == [] then [] else RecordBytes(rs[0]) + TableBytes(rs[1..])
  }

  function ReadTable(s: seq<byte>): (rs: seq<Requirement>)
    requires |s| % REQUIREMENT_SIZE == 0
    ensures |s| == REQUIREMENT_SIZE * |rs|
    decreases |s|
  {
    if s == [] then [] else [ReadRecord(s[..REQUIREMENT_SIZE])] + ReadTable(s[REQUIREMENT_SIZE..])
  }

  /** The table codec is a bijection: each side undoes the other on every input. */
  lemma {:induction false} TableIsCanonical(s: seq<byte>, rs: seq<Requirement>)
    requires |s| % REQUIREMENT_SIZE == 0
    ensures ReadTable(s) == rs <==> s == TableBytes(rs)
    decreases |s|
  {
    if s != [] && rs != [] {
      var head, tail := s[..REQUIREMENT_SIZE], s[REQUIREMENT_SIZE..];
      RecordIsCanonical(head, rs[0]);
      TableIsCanonical(tail, rs[1..]);
      assert s == head + tail;
      var e, f := RecordBytes(rs[0]), TableBytes(rs[1..]);
      assert (e + f)[..REQUIREMENT_SIZE] == e && (e + f)[REQUIREMENT_SIZE..] == f;
      assert ReadTable(s)[0] == ReadRecord(head) && ReadTable(s)[1..] == ReadTable(tail);
      assert rs == [rs[0]] + rs[1..];
    }
  }

  // ---------------------------------------------------------------------------------------
  // Export and import. `compatible` stands for the check against the pane module registry.

  /** The type ids run from the project tool's to the version control tool's. */
  function ModuleTypeId(i: nat): uint32
    requires i < REQUIREMENT_COUNT
  {
    0x4944_5001 + i
  }

  function BuiltIn(i: nat): Requirement
    requires i < REQUIREMENT_COUNT
  {
    Requirement(ModuleTypeId(i), 1, 0, 1, 0)
  }

  function BuiltInFrom(i: nat): (rs: seq<Requirement>)
    requires i <= REQUIREMENT_COUNT
    ensures |rs| == REQUIREMENT_COUNT - i
    decreases REQUIREMENT_COUNT - i
  {
    if i == REQUIREMENT_COUNT then [] else [BuiltIn(i)] + BuiltInFrom(i + 1)
  }

  function Exported(p: Projection, compatible: seq<Requirement> -> bool): Outcome<Chunks> {
    if !Valid(p) then InvalidArg
    else if !compatible(BuiltInFrom(0)) then Requirements
    else Done(Chunks(PayloadOf(p), TableBytes(BuiltInFrom(0))))
  }

  function Imported(c: Chunks, compatible: seq<Requirement> -> bool): Outcome<Projection> {
    if |c.payload| != PAYLOAD_SIZE || |c.requirements| != REQUIREMENT_COUNT * REQUIREMENT_SIZE then Container
    else match ReadPayload(c.payload)
      case Done(p) => if compatible(ReadTable(c.requirements)) then Done(p) else Requirements
      case failure => failure
  }

  /** Whatever is exported imports back to the same projection; and what imports as `p` has
      `p`'s own payload and the encoding of some compatible table, nothing else. */
  lemma ImportExact(c: Chunks, p: Projection, compatible: seq<Requirement> -> bool)
    ensures Imported(c, compatible) == Done(p) <==>
            && Valid(p) && c.payload == PayloadOf(p)
            && exists rs :: |rs| == REQUIREMENT_COUNT && compatible(rs) && c.requirements == TableBytes(rs)
  {
    if |c.payload| == PAYLOAD_SIZE {
      PayloadIsCanonical(c.payload, p);
    }
    if |c.requirements| == REQUIREMENT_COUNT * REQUIREMENT_SIZE {
      var rs := ReadTable(c.requirements);
      TableIsCanonical(c.requirements, rs);
      forall other | c.requirements == TableBytes(other) ensures other == rs {
        TableIsCanonical(c.requirements, other);
      }
    }
  }

  lemma ExportImports(p: Projection, compatible: seq<Requirement> -> bool)
    ensures Exported(p, compatible).Done? <==> Valid(p) && compatible(BuiltInFrom(0))
    ensures Exported(p, compatible).Done? ==> Imported(Exported(p, compatible).value, compatible) == Done(p)
  {
    if Exported(p, compatible).Done? {
      ImportExact(Exported(p, compatible).value, p, compatible);
    }
  }

  // ---------------------------------------------------------------------------------------
  // The format, byte by byte.

  lemma PayloadByBytes(p: Projection)
    ensures Valid(p) <==> 0 <= p.activeTool <= 6
    ensures Valid(p) ==>
              PayloadOf(p) == [1, 0, 0, 0,
                               if p.toolPanel then 1 else 0, if p.controlPanel then 1 else 0,
                               if p.terminal then 1 else 0, 0,
                               p.activeTool as byte, 0, 0, 0, 7, 0, 0, 0]
  {
    if Valid(p) {
      PayloadFields(p);
      var e := PayloadOf(p);
      assert e == e[0..2] + e[2..4] + [e[4], e[5], e[6], e[7]] + e[8..12] + e[12..14] + e[14..16];
    }
  }

  /** Twelve little-endian bytes: the id, then the four version numbers. */
  lemma RecordByBytes(r: Requirement)
    ensures var s := RecordBytes(r);
            && |s| == 12
            && r.typeId == s[0] as int + 256 * s[1] as int + 65_536 * s[2] as int + 16_777_216 * s[3] as int
            && r.minMajor == s[4] as int + 256 * s[5] as int && r.minMinor == s[6] as int + 256 * s[7] as int
            && r.stateMajor == s[8] as int + 256 * s[9] as int && r.stateMinor == s[10] as int + 256 * s[11] as int
  {
    var s := RecordBytes(r);
    RecordFields(r);
    Word32(r.typeId, s[0..4]);
    Word16(r.minMajor, s[4..6]);
    Word16(r.minMinor, s[6..8]);
    Word16(r.stateMajor, s[8..10]);
    Word16(r.stateMinor, s[10..12]);
    assert ReadRecord(s) == r;
  }

  lemma {:induction false} BuiltInAt(i: nat, k: nat)
    requires i <= k < REQUIREMENT_COUNT
    ensures BuiltInFrom(i)[k - i] == Requirement(0x4944_5001 + k, 1, 0, 1, 0)
    decreases k - i
  {
    if i < k {
      BuiltInAt(i + 1, k);
    }
  }

  /** An export holds the encoding of the seven built-in modules, project to version control, each
      at 1.0; no other table has that encoding (`TableIsCanonical`). */
  lemma ExportedModules(p: Projection, compatible: seq<Requirement> -> bool, k: nat)
    requires Exported(p, compatible).Done? && k < 7
    ensures var rs := BuiltInFrom(0);
            && Exported(p, compatible).value.requirements == TableBytes(rs)
            && |rs| == 7 && rs[k] == Requirement(0x4944_5001 + k, 1, 0, 1, 0)
  {
    BuiltInAt(0, k);
  }

  /** What makes an import fail, byte by byte and in this order. */
  lemma ImportErrors(c: Chunks, compatible: seq<Requirement> -> bool)
    ensures var s, r := c.payload, Imported(c, compatible);
            if |s| != 16 || |c.requirements| != 84 then r == Container
            else if !(s[..4] == [1, 0, 0, 0] && s[4] <= 1 && s[5] <= 1 && s[6] <= 1 && s[7] == 0
                      && s[12..] == [7, 0, 0, 0])
            then r == Schema
            else if !(s[8] <= 6 && s[9] == s[10] == s[11] == 0) then r == BadProjection
            else if !compatible(ReadTable(c.requirements)) then r == Requirements
            else r == Done(Projection(s[4] == 1, s[5] == 1, s[6] == 1, s[8] as int))
  {
    var s := c.payload;
    if |s| == 16 {
      Word16(1, s[0..2]);
      Word16(0, s[2..4]);
      Word16(7, s[12..14]);
      Word16(0, s[14..16]);
      assert s[..4] == s[0..2] + s[2..4] && s[12..] == s[12..14] + s[14..16];
    }
  }

  // ---------------------------------------------------------------------------------------
  // The source's form: both directions work on byte buffers in place.

  /** `s` with the bytes of `v` written over it from index `at` on. */
  function Overwritten(s: seq<byte>, at: nat, v: seq<byte>): (r: seq<byte>)
    requires at + |v| <= |s|
    ensures |r| == |s|
    ensures forall i :: 0 <= i < |s| ==> r[i] == if at <= i < at + |v| then v[i - at] else s[i]
  {
    s[..at] + v + s[at + |v|..]
  }

  lemma OverwrittenInTurn(s: seq<byte>, at: nat, v: seq<byte>, w: seq<byte>)
    requires at + |v| + |w| <= |s|
    ensures Overwritten(Overwritten(s, at, v), at + |v|, w) == Overwritten(s, at, v + w)
  {
  }

  method Put16(p: array<byte>, at: nat, v: uint16)
    requires at + 2 <= p.Length
    modifies p
    ensures p[..] == Overwritten(old(p[..]), at, Bytes16(v))
  {
    p[at] := (v % 0x100) as byte;
    p[at + 1] := (v / 0x100) as byte;
  }

  method Put32(p: array<byte>, at: nat, v: uint32)
    requires at + 4 <= p.Length
    modifies p
    ensures p[..] == Overwritten(old(p[..]), at, Bytes32(v))
  {
    p[at] := (v % 0x100) as byte;
    p[at + 1] := (v / 0x100 % 0x100) as byte;
    p[at + 2] := (v / 0x1_0000 % 0x100) as byte;
    p[at + 3] := (v / 0x100_0000) as byte;
  }

  method PutFlags(payload: array<byte>, p: Projection, ghost zeros: seq<byte>, ghost written: seq<byte>)
    requires payload.Length == PAYLOAD_SIZE == |zeros| && |written| == 4 && zeros[7] == 0
    requires payload[..] == Overwritten(zeros, 0, written)
    modifies payload
    ensures payload[..] == Overwritten(zeros, 0, written + FlagBytes(p))
  {
    payload[4] := Flag(p.toolPanel);
    payload[5] := Flag(p.controlPanel);
    payload[6] := Flag(p.terminal);
  }

  method WritePayload(p: Projection) returns (payload: array<byte>)
    requires Valid(p)
    ensures fresh(payload) && payload[..] == PayloadOf(p)
  {
    payload := new byte[PAYLOAD_SIZE](_ => 0);
    ghost var zeros := payload[..];
    Put16(payload, 0, SCHEMA_MAJOR);
    Put16(payload, 2, SCHEMA_MINOR);
    OverwrittenInTurn(zeros, 0, Bytes16(SCHEMA_MAJOR), Bytes16(SCHEMA_MINOR));
    PutFlags(payload, p, zeros, Bytes16(SCHEMA_MAJOR) + Bytes16(SCHEMA_MINOR));
    Put32(payload, 8, p.activeTool);
    Put16(payload, 12, REQUIREMENT_COUNT);
    PayloadAssembled(p, zeros);
  }

  /** The last two writes complete the payload; the bytes after them are still zero. */
  lemma PayloadAssembled(p: Projection, zeros: seq<byte>)
    requires Valid(p) && |zeros| == PAYLOAD_SIZE && forall i :: 0 <= i < PAYLOAD_SIZE ==> zeros[i] == 0
    ensures var head := Bytes16(SCHEMA_MAJOR) + Bytes16(SCHEMA_MINOR) + FlagBytes(p);
            Overwritten(Overwritten(Overwritten(zeros, 0, head), 8, Bytes32(p.activeTool)),
                        12, Bytes16(REQUIREMENT_COUNT)) == PayloadOf(p)
  {
    var written := Bytes16(SCHEMA_MAJOR) + Bytes16(SCHEMA_MINOR) + FlagBytes(p);
    OverwrittenInTurn(zeros, 0, written, Bytes32(p.activeTool));
    written := written + Bytes32(p.activeTool);
    OverwrittenInTurn(zeros, 0, written, Bytes16(REQUIREMENT_COUNT));
    written := written + Bytes16(REQUIREMENT_COUNT);
    assert Overwritten(zeros, 0, written) == written + Bytes16(0);
  }

  method PutRecord(bytes: array<byte>, at: nat, r: Requirement)
    requires at + REQUIREMENT_SIZE <= bytes.Length
    modifies bytes
    ensures bytes[..] == Overwritten(old(bytes[..]), at, RecordBytes(r))
  {
    ghost var s, b := bytes[..], Bytes32(r.typeId);
    Put32(bytes, at, r.typeId);
    OverwrittenInTurn(s, at, b, Bytes16(r.minMajor));
    Put16(bytes, at + 4, r.minMajor);
    b := b + Bytes16(r.minMajor);
    OverwrittenInTurn(s, at, b, Bytes16(r.minMinor));
    Put16(bytes, at + 6, r.minMinor);
    b := b + Bytes16(r.minMinor);
    OverwrittenInTurn(s, at, b, Bytes16(r.stateMajor));
    Put16(bytes, at + 8, r.stateMajor);
    b := b + Bytes16(r.stateMajor);
    OverwrittenInTurn(s, at, b, Bytes16(r.stateMinor));
    Put16(bytes, at + 10, r.stateMinor);
  }

  lemma {:induction false} TableAppends(rs: seq<Requirement>, r: Requirement)
    ensures TableBytes(rs + [r]) == TableBytes(rs) + RecordBytes(r)
  {
    if rs == [] {
      assert [r][1..] == [];
      assert TableBytes([r]) == RecordBytes(r) + [];
    } else {
      assert (rs + [r])[1..] == rs[1..] + [r];
      TableAppends(rs[1..], r);
    }
  }

  method WriteTable(rs: seq<Requirement>) returns (bytes: array<byte>)
    ensures fresh(bytes) && bytes[..] == TableBytes(rs)
  {
    bytes := new byte[REQUIREMENT_SIZE * |rs|](_ => 0);
    var i := 0;
    while i < |rs|
      invariant i <= |rs|
      invariant bytes[..REQUIREMENT_SIZE * i] == TableBytes(rs[..i])
    {
      PutRecord(bytes, REQUIREMENT_SIZE * i, rs[i]);
      TableAppends(rs[..i], rs[i]);
      assert rs[..i + 1] == rs[..i] + [rs[i]];
      i := i + 1;
    }
    assert rs[..i] == rs;
  }

  lemma ReadNext(done: seq<byte>, record: seq<byte>, rs: seq<Requirement>, r: Requirement)
    requires |record| == REQUIREMENT_SIZE && done == TableBytes(rs) && r == ReadRecord(record)
    ensures done + record == TableBytes(rs + [r])
  {
    RecordIsCanonical(record, r);
    TableAppends(rs, r);
  }

  method ReadRecords(bytes: array<byte>, count: nat) returns (rs: seq<Requirement>)
    requires bytes.Length == REQUIREMENT_SIZE * count
    ensures rs == ReadTable(bytes[..])
  {
    rs := [];
    var i := 0;
    while i < count
      invariant i <= count && |rs| == i
      invariant bytes[..REQUIREMENT_SIZE * i] == TableBytes(rs)
    {
      var at := REQUIREMENT_SIZE * i;
      var r := ReadRecord(bytes[at..at + REQUIREMENT_SIZE]);
      ReadNext(bytes[..at], bytes[at..at + REQUIREMENT_SIZE], rs, r);
      assert bytes[..at + REQUIREMENT_SIZE] == bytes[..at] + bytes[at..at + REQUIREMENT_SIZE];
      rs := rs + [r];
      i := i + 1;
    }
    assert bytes[..REQUIREMENT_SIZE * i] == bytes[..];
    TableIsCanonical(bytes[..], rs);
  }

  /** `ide_workspace_authoring_profile_export_file`, up to the container writer. */
  method Export(p: Projection, compatible: seq<Requirement> -> bool) returns (r: Outcome<Chunks>)
    ensures r == Exported(p, compatible)
  {
    if !Valid(p) { return InvalidArg; }
    var requirements := BuiltInFrom(0);
    if !compatible(requirements) { return Requirements; }
    var payload := WritePayload(p);
    var bytes := WriteTable(requirements);
    r := Done(Chunks(payload[..], bytes[..]));
  }

  /** `ide_workspace_authoring_profile_import_file`, from the container reader on. */
  method Import(payload: array<byte>, bytes: array<byte>, compatible: seq<Requirement> -> bool)
    returns (r: Outcome<Projection>)
    ensures r == Imported(Chunks(payload[..], bytes[..]), compatible)
  {
    if payload.Length != PAYLOAD_SIZE || bytes.Length != REQUIREMENT_COUNT * REQUIREMENT_SIZE { return Container; }
    if !SchemaMatches(payload[..]) { return Schema; }
    var decoded := Projection(payload[4] != 0, payload[5] != 0, payload[6] != 0, EnumValue(Get32(payload[8..12])));
    if !Valid(decoded) { return BadProjection; }
    assert payload[..][8..12] == payload[8..12];
    var requirements := ReadRecords(bytes, REQUIREMENT_COUNT);
    if !compatible(requirements) { return Requirements; }
    r := Done(decoded);
  }
}
