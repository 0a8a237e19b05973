/** The `path:line:col` targets printed by tools/mcp/runtime.py and parsed by
    tools/idebridge/idebridge.c. */
module TargetSpec {
  import opened PathTable
  import opened Decimal

  datatype Target = Target(path: string, line: int, column: int)

  const NUMBER_BUFFER: nat := 32

  /** `open_document`'s target string. */
  function Printed(t: Target): string {
    t.path + ":" + Print(t.line) + ":" + Print(t.column)
  }

  /** `atoi`, with the parser's floor of 1. */
  function Position(text: string): int {
    var v := CastInt(Strtol(text).0);
    if v <= 0 then 1 else v
  }

  /** The parser's numbers start at 1: what reads as 0 or less counts as 1. */
  lemma PositionExactly(text: string)
    ensures Position(text) >= 1
    ensures var v := CastInt(Strtol(text).0); v >= 1 ==> Position(text) == v
    ensures forall n :: -0x8000_0000 <= n <= 0 ==> Position(Print(n)) == 1
  {
    forall n | -0x8000_0000 <= n <= 0 { PrintReads(n); }
  }

  /** How a target splits at its last two colons. */
  ghost predicate Splits(spec: string, path: string, lineText: string, columnText: string) {
    spec == path + ":" + lineText + ":" + columnText && ':' !in lineText && ':' !in columnText
  }

  ghost predicate Fits(path: string, lineText: string, columnText: string, pathCap: nat) {
    path != "" && |path| + 1 <= pathCap && 1 <= |lineText| <= 31 && 1 <= |columnText| <= 31
  }

  lemma SplitAt(spec: string, path: string, lineText: string, columnText: string)
    requires Splits(spec, path, lineText, columnText)
    ensures var second, last := |path|, |path| + 1 + |lineText|;
            && last < |spec| && spec[second] == ':' && spec[last] == ':'
            && spec[..second] == path && spec[second + 1..last] == lineText && spec[last + 1..] == columnText
            && (forall i :: second < i < |spec| && i != last ==> spec[i] != ':')
  {
    var second, last := |path|, |path| + 1 + |lineText|;
    assert spec[second + 1..last] == lineText;
    assert spec[last + 1..] == columnText;
    forall i | second < i < |spec| && i != last
      ensures spec[i] != ':'
    {
      if i < last { assert spec[i] == lineText[i - second - 1]; } else { assert spec[i] == columnText[i - last - 1]; }
    }
  }

  /** The split is unique, colons in the path or not. */
  lemma SplitIsUnique(spec: string, p: string, l: string, c: string, p': string, l': string, c': string)
    requires Splits(spec, p, l, c) && Splits(spec, p', l', c')
    ensures p == p' && l == l' && c == c'
  {
    SplitAt(spec, p, l, c);
    SplitAt(spec, p', l', c');
    var last, last' := |p| + 1 + |l|, |p'| + 1 + |l'|;
    assert last == last';
    assert |p| == |p'|;
  }

  /** A target comes from a split whose parts fit; no target means there is no such split. */
  ghost predicate ParsedAs(spec: string, pathCap: nat, target: Option<Target>) {
    match target
    case None => forall p, l, c :: Splits(spec, p, l, c) ==> !Fits(p, l, c, pathCap)
    case Some(t) =>
      exists l, c :: Splits(spec, t.path, l, c) && Fits(t.path, l, c, pathCap)
                     && t.line == Position(l) && t.column == Position(c)
  }

  /** `parse_target_spec`: succeeds exactly on specs that split into parts that fit. */
  method ParseTargetSpec(spec: string, pathCap: nat) returns (target: Option<Target>)
    ensures ParsedAs(spec, pathCap, target)
  {
    target := None;
    var last := |spec| - 1;
    while last >= 0 && spec[last] != ':'
      invariant -1 <= last < |spec|
      invariant forall i :: last < i < |spec| ==> spec[i] != ':'
    {
      last := last - 1;
    }
    var second := last - 1;
    while second >= 0 && spec[second] != ':'
      invariant last >= 0 ==> -1 <= second < last
      invariant last < 0 ==> second < 0
      invariant forall i :: second < i < last ==> 0 <= i < |spec| && spec[i] != ':'
    {
      second := second - 1;
    }
    forall p, l, c | Splits(spec, p, l, c)
      ensures second == |p| && last == |p| + 1 + |l|
    {
      SplitAt(spec, p, l, c);
    }
    if last < 0 || last + 1 == |spec| || second < 0 { return; }
    var path, lineText, columnText := spec[..second], spec[second + 1..last], spec[last + 1..];
    assert Splits(spec, path, lineText, columnText) by {
      assert spec == spec[..second] + [spec[second]] + spec[second + 1..last] + [spec[last]] + spec[last + 1..];
    }
    if path == "" || |path| + 1 > pathCap || lineText == "" || |lineText| >= NUMBER_BUFFER
       || columnText == "" || |columnText| >= NUMBER_BUFFER
    {
      forall p, l, c | Splits(spec, p, l, c)
        ensures !Fits(p, l, c, pathCap)
      {
        SplitIsUnique(spec, p, l, c, path, lineText, columnText);
      }
      return;
    }
    target := Some(Target(path, Position(lineText), Position(columnText)));
    assert Splits(spec, target.value.path, lineText, columnText) && Fits(path, lineText, columnText, pathCap);
  }

  /** Any position a 32-bit number can name. */
  predicate Locates(t: Target) {
    1 <= t.line <= 2_147_483_647 && 1 <= t.column <= 2_147_483_647
  }

  /** A target that points before the first line or column is read as pointing there. */
  lemma PositionsFromOne(path: string, line: int, column: int, back: Option<Target>)
    requires IsInt(line) && IsInt(column) && path != "" && |path| <= 1023
    requires ParsedAs(Printed(Target(path, line, column)), 1024, back)
    ensures back == Some(Target(path, if line < 1 then 1 else line, if column < 1 then 1 else column))
  {
    PrintedIsShort(line);
    PrintedIsShort(column);
    assert Splits(Printed(Target(path, line, column)), path, Print(line), Print(column));
    if back.Some? {
      var l, c :| Splits(Printed(Target(path, line, column)), back.value.path, l, c)
                  && Fits(back.value.path, l, c, 1024)
                  && back.value.line == Position(l) && back.value.column == Position(c);
      SplitIsUnique(Printed(Target(path, line, column)), path, Print(line), Print(column), back.value.path, l, c);
    }
  }

  lemma PrintedIsShort(n: int)
    requires IsInt(n)
    ensures ':' !in Print(n) && 1 <= |Print(n)| <= 31 && Position(Print(n)) == if n < 1 then 1 else n
  {
    PrintReads(n);
    assert Power10(10) == 10_000_000_000;
    DigitsAreShort(if n < 0 then -n else n, 10, Power10(10));
  }

  /** A printed target splits back into its own parts, and they fit. */
  lemma PrintedSplits(t: Target)
    requires Locates(t)
    ensures Splits(Printed(t), t.path, Print(t.line), Print(t.column))
    ensures Position(Print(t.line)) == t.line && Position(Print(t.column)) == t.column
    ensures t.path != "" && |t.path| <= 1023 ==> Fits(t.path, Print(t.line), Print(t.column), 1024)
  {
    PrintedIsShort(t.line);
    PrintedIsShort(t.column);
  }

  /** Round trip through the two tools, for every non-empty path of at most 1023 bytes. */
  lemma PrintedParsesBack(t: Target, back: Option<Target>)
    requires Locates(t) && t.path != "" && |t.path| <= 1023
    requires ParsedAs(Printed(t), 1024, back)
    ensures back == Some(t)
  {
    PrintedSplits(t);
    if back.Some? {
      var l, c :| Splits(Printed(t), back.value.path, l, c) && Fits(back.value.path, l, c, 1024)
                  && back.value.line == Position(l) && back.value.column == Position(c);
      SplitIsUnique(Printed(t), t.path, Print(t.line), Print(t.column), back.value.path, l, c);
    }
  }
}
