/** The preferences file of workspace_prefs.c: written key by key, read back line by line
    with a key test that accepts any prefix of a known key. */
module ConfigFile {
  import opened Decimal
  import opened PathTable

  datatype Key = Workspace | RunTarget | ThemePreset | FontPreset | FontZoomStep
               | ToolPanelVisible | ControlPanelVisible | TerminalVisible | ActiveTool
               | BuildCommand | BuildArgs | BuildWorkdir | BuildOutputDir | RunCommand | RunArgs | RunWorkdir

  /** The order in which keys are written, and tested when read. */
  const KEYS: seq<Key> := [Workspace, RunTarget, ThemePreset, FontPreset, FontZoomStep,
                           ToolPanelVisible, ControlPanelVisible, TerminalVisible, ActiveTool,
                           BuildCommand, BuildArgs, BuildWorkdir, BuildOutputDir, RunCommand, RunArgs, RunWorkdir]

  function Name(k: Key): string {
    match k
    case Workspace => "workspace"
    case RunTarget => "run_target"
    case ThemePreset => "theme_preset"
    case FontPreset => "font_preset"
    case FontZoomStep => "font_zoom_step"
    case ToolPanelVisible => "authoring_tool_panel_visible"
    case ControlPanelVisible => "authoring_control_panel_visible"
    case TerminalVisible => "authoring_terminal_visible"
    case ActiveTool => "authoring_active_tool"
    case BuildCommand => "build_command"
    case BuildArgs => "build_args"
    case BuildWorkdir => "build_workdir"
    case BuildOutputDir => "build_output_dir"
    case RunCommand => "run_command"
    case RunArgs => "run_args"
    case RunWorkdir => "run_workdir"
  }

  predicate IsVisible(k: Key) {
    k.ToolPanelVisible? || k.ControlPanelVisible? || k.TerminalVisible?
  }

  predicate IsAuthoring(k: Key) {
    IsVisible(k) || k.ActiveTool?
  }

  predicate IsNumber(k: Key) {
    k.FontZoomStep? || IsAuthoring(k)
  }

  const PATH_MAX: nat := 4096
  const LINE_BUFFER: nat := PATH_MAX + 512

  /** The buffer that holds a text value, terminator included. */
  function Capacity(k: Key): (c: nat)
    ensures 0 < c <= PATH_MAX
  {
    match k
    case ThemePreset => 128
    case FontPreset => 128
    case BuildCommand => 256
    case BuildArgs => 512
    case RunCommand => 256
    case RunArgs => 512
    case _ => PATH_MAX
  }

  /** The cached preferences: `text` for text keys, `number` for the others. */
  datatype Prefs = Prefs(text: map<Key, string>, number: map<Key, int>, zoomSet: bool, authoringSet: bool)

  ghost predicate Complete(p: Prefs) {
    && (forall k :: k in p.text <==> !IsNumber(k))
    && (forall k :: k in p.number <==> IsNumber(k))
  }

  /** What `loadConfigFile` starts from. */
  function Defaults(): Prefs {
    Prefs(map k: Key | k in KEYS && !IsNumber(k) :: "",
          map k: Key | k in KEYS && IsNumber(k) :: if IsVisible(k) then 1 else 0, false, false)
  }

  // ---------------------------------------------------------------------------------------
  // Writing.

  function ValueText(p: Prefs, k: Key): string
    requires if IsNumber(k) then k in p.number else k in p.text
  {
    if k.FontZoomStep? then Print(if p.zoomSet then p.number[k] else 0)
    else if IsNumber(k) then Print(p.number[k])
    else p.text[k]
  }

  function LineOf(p: Prefs, k: Key): string
    requires if IsNumber(k) then k in p.number else k in p.text
  {
    if IsAuthoring(k) && !p.authoringSet then "" else Name(k) + "=" + ValueText(p, k) + "\n"
  }

  function WrittenKeys(p: Prefs, keys: seq<Key>): string
    requires Complete(p)
  {
    if keys == [] then "" else LineOf(p, keys[0]) + WrittenKeys(p, keys[1..])
  }

  function Written(p: Prefs): string
    requires Complete(p)
  {
    WrittenKeys(p, KEYS)
  }

  // ---------------------------------------------------------------------------------------
  // Reading.

  predicate IsTrimmed(c: char) {
    c == '\n' || c == '\r' || c == ' ' || c == '\t'
  }

  /** `trimTrailingWhitespace`. */
  function Trimmed(s: string): (r: string)
    ensures r <= s
    ensures r != [] ==> !IsTrimmed(r[|r| - 1])
    ensures forall i :: |r| <= i < |s| ==> IsTrimmed(s[i])
  {
    if s != [] && IsTrimmed(s[|s| - 1]) then Trimmed(s[..|s| - 1]) else s
  }

  /** How many bytes `fgets` takes: through the first newline, at most the buffer less one. */
  function FgetsLength(s: string, room: nat): (n: nat)
    ensures n <= |s| && n <= room
    ensures s != [] && room > 0 ==> n > 0
  {
    if s == [] || room == 0 then 0
    else if s[0] == '\n' then 1
    else 1 + FgetsLength(s[1..], room - 1)
  }

  function FirstEquals(s: string): (n: nat)
    ensures n <= |s|
    ensures n < |s| ==> s[n] == '='
    ensures forall i :: 0 <= i < n ==> s[i] != '='
  {
    if s == [] || s[0] == '=' then 0 else 1 + FirstEquals(s[1..])
  }

  /** `strncmp(line, name, keyLen) == 0`: the line's key is a prefix of the name. */
  predicate KeyMatches(key: string, name: string) {
    key == [] || (name != [] && key[0] == name[0] && KeyMatches(key[1..], name[1..]))
  }

  /** The branch the key takes: the first name it is a prefix of. */
  function Branch(key: string, keys: seq<Key>): Option<Key>
  {
    if keys == [] then None
    else if KeyMatches(key, Name(keys[0])) then Some(keys[0])
    else Branch(key, keys[1..])
  }

  /** `strncpy` into a buffer of the key's size. */
  function Copied(value: string, k: Key): string {
    if |value| < Capacity(k) then value else value[..Capacity(k) - 1]
  }

  function Assigned(p: Prefs, k: Key, value: string): Prefs {
    var (v, read) := Strtol(value);
    if !IsNumber(k) then p.(text := p.text[k := Copied(value, k)])
    else if IsVisible(k) then p.(number := p.number[k := if v != 0 then 1 else 0], authoringSet := true)
    else if !read then p
    else if k.FontZoomStep? then p.(number := p.number[k := CastInt(v)], zoomSet := true)
    else p.(number := p.number[k := CastInt(v)], authoringSet := true)
  }

  /** One line of the file, tested against the `known` keys. */
  function LineApplied(p: Prefs, raw: string, known: seq<Key>): Prefs {
    var line := Trimmed(raw);
    var equals := FirstEquals(line);
    if line == "" || equals == |line| then p
    else match Branch(line[..equals], known)
      case None => p
      case Some(k) => Assigned(p, k, line[equals + 1..])
  }

  /** The `fgets` loop over a file, with `apply` for one line. */
  function Folded(p: Prefs, file: string, apply: (Prefs, string) -> Prefs): Prefs
    decreases |file|
  {
    if file == [] then p
    else
      var n := FgetsLength(file, LINE_BUFFER - 1);
      Folded(apply(p, file[..n]), file[n..], apply)
  }

  function Loaded(p: Prefs, file: string, known: seq<Key>): Prefs {
    Folded(p, file, (q, raw) => LineApplied(q, raw, known))
  }

  // ---------------------------------------------------------------------------------------
  // Every written key finds its own branch, though the test is only a prefix test.

  function Initial(k: Key): char {
    match k
    case Workspace => 'w'
    case ThemePreset => 't'
    case FontPreset => 'f'
    case FontZoomStep => 'f'
    case RunTarget => 'r'
    case RunCommand => 'r'
    case RunArgs => 'r'
    case RunWorkdir => 'r'
    case BuildCommand => 'b'
    case BuildArgs => 'b'
    case BuildWorkdir => 'b'
    case BuildOutputDir => 'b'
    case _ => 'a'
  }

  /** Names with one initial differ from each other at one position ... */
  function TellingIndex(initial: char): nat {
    if initial == 'f' then 5 else if initial == 'r' then 4 else if initial == 'b' then 6
    else if initial == 'a' then 13 else 0
  }

  /** ... where each has its own letter. */
  function TellingLetter(k: Key): char {
    match k
    case Workspace => 'w'
    case ThemePreset => 't'
    case FontPreset => 'p'
    case FontZoomStep => 'z'
    case RunTarget => 't'
    case RunCommand => 'c'
    case RunArgs => 'a'
    case RunWorkdir => 'w'
    case BuildCommand => 'c'
    case BuildArgs => 'a'
    case BuildWorkdir => 'w'
    case BuildOutputDir => 'o'
    case ToolPanelVisible => 'l'
    case ControlPanelVisible => 't'
    case TerminalVisible => 'm'
    case ActiveTool => 'i'
  }

  lemma NameLetters(k: Key)
    ensures TellingIndex(Initial(k)) < |Name(k)| <= 31 && Name(k)[0] == Initial(k)
    ensures Name(k)[TellingIndex(Initial(k))] == TellingLetter(k)
  {
  }

  predicate IsKeyChar(c: char) {
    c == '_' || 'a' <= c <= 'z'
  }

  lemma NumberNames(k: Key)
    requires IsNumber(k)
    ensures forall c :: c in Name(k) ==> IsKeyChar(c)
  {
  }

  lemma TextNames(k: Key)
    requires !IsNumber(k)
    ensures forall c :: c in Name(k) ==> IsKeyChar(c)
  {
  }

  lemma NameIsPlain(k: Key)
    ensures '=' !in Name(k) && '\n' !in Name(k)
  {
    if IsNumber(k) { NumberNames(k); } else { TextNames(k); }
    assert !IsKeyChar('=') && !IsKeyChar('\n');
  }

  lemma {:induction false} KeyMatchesItself(s: string)
    ensures KeyMatches(s, s)
  {
    if s != [] {
      KeyMatchesItself(s[1..]);
    }
  }

  lemma {:induction false} KeyMismatch(a: string, b: string, i: nat)
    requires i < |a| && i < |b| && a[i] != b[i]
    ensures !KeyMatches(a, b)
  {
    if i > 0 && a[0] == b[0] {
      KeyMismatch(a[1..], b[1..], i - 1);
    }
  }

  lemma {:induction false} NameFindsItself(k: Key, keys: seq<Key>)
    requires k in keys
    ensures Branch(Name(k), keys) == Some(k)
  {
    var first := keys[0];
    if first == k {
      KeyMatchesItself(Name(k));
    } else {
      NameLetters(k);
      NameLetters(first);
      KeyMismatch(Name(k), Name(first), if Initial(k) != Initial(first) then 0 else TellingIndex(Initial(k)));
      NameFindsItself(k, keys[1..]);
    }
  }

  // ---------------------------------------------------------------------------------------
  // One written line, read back.

  lemma {:induction false} TrimmedAppend(a: string, b: string)
    requires a != [] && !IsTrimmed(a[|a| - 1])
    ensures Trimmed(a + b) == a + Trimmed(b)
  {
    if b == [] {
      assert a + b == a;
    } else if IsTrimmed(b[|b| - 1]) {
      assert (a + b)[..|a + b| - 1] == a + b[..|b| - 1];
      TrimmedAppend(a, b[..|b| - 1]);
    }
  }

  lemma {:induction false} EqualsAfterKey(key: string, rest: string)
    requires '=' !in key
    ensures FirstEquals(key + "=" + rest) == |key|
  {
    var line := key + "=" + rest;
    if key != [] {
      assert line[1..] == key[1..] + "=" + rest;
      EqualsAfterKey(key[1..], rest);
    }
  }

  lemma {:induction false} FgetsTakesLine(body: string, rest: string, room: nat)
    requires '\n' !in body && |body| < room
    ensures FgetsLength(body + "\n" + rest, room) == |body| + 1
  {
    var file := body + "\n" + rest;
    if body != [] {
      assert file[1..] == body[1..] + "\n" + rest;
      FgetsTakesLine(body[1..], rest, room - 1);
    }
  }

  lemma PrintIsPlain(i: int)
    ensures '\n' !in Print(i) && Print(i) != "" && Trimmed(Print(i)) == Print(i)
  {
    assert forall c :: IsDigit(c) ==> !IsTrimmed(c);
    var s := Print(i);
    if i < 0 {
      assert s[|s| - 1] == Digits(-i)[|s| - 2];
    }
  }

  /** Values that can be written so that they come back: no newline, no overflow. */
  ghost predicate Clean(p: Prefs) {
    && Complete(p)
    && (forall k :: k in p.text ==> '\n' !in p.text[k] && |p.text[k]| < Capacity(k))
    && (forall k :: k in p.number ==> IsInt(p.number[k]))
  }

  lemma IntsAreShort(i: int)
    requires IsInt(i)
    ensures |Print(i)| <= 11
  {
    assert Power10(10) == 10_000_000_000;
    DigitsAreShort(if i < 0 then -i else i, 10, Power10(10));
  }

  lemma ValueIsOneLine(p: Prefs, k: Key)
    requires Clean(p)
    ensures '\n' !in ValueText(p, k) && |ValueText(p, k)| < PATH_MAX
    ensures IsNumber(k) ==> Trimmed(ValueText(p, k)) == ValueText(p, k)
  {
    if IsNumber(k) {
      var i := if k.FontZoomStep? && !p.zoomSet then 0 else p.number[k];
      PrintIsPlain(i);
      IntsAreShort(i);
    }
  }

  /** What one number comes back as. */
  function NumberBack(p: Prefs, k: Key): int
    requires Complete(p) && IsNumber(k)
  {
    if k.FontZoomStep? then (if p.zoomSet then p.number[k] else 0)
    else if IsVisible(k) then (if p.number[k] != 0 then 1 else 0)
    else p.number[k]
  }

  /** What reading the line written for `k` does to the preferences read so far. */
  function Kept(p0: Prefs, p: Prefs, k: Key): (r: Prefs)
    requires Complete(p) && Complete(p0)
    ensures Complete(r)
  {
    if !IsNumber(k) then p0.(text := p0.text[k := Trimmed(p.text[k])])
    else if k.FontZoomStep? || p.authoringSet then
      p0.(number := p0.number[k := NumberBack(p, k)], zoomSet := p0.zoomSet || k.FontZoomStep?,
          authoringSet := p0.authoringSet || !k.FontZoomStep?)
    else p0
  }

  lemma LineTrims(name: string, value: string)
    ensures Trimmed(name + "=" + value + "\n") == name + "=" + Trimmed(value)
  {
    assert name + "=" + value + "\n" == (name + "=") + (value + "\n");
    TrimmedAppend(name + "=", value + "\n");
    assert (value + "\n")[..|value|] == value;
  }

  /** A line for a known key assigns its trimmed value to that key. */
  lemma LineAssigns(p0: Prefs, k: Key, value: string, known: seq<Key>)
    requires k in known
    ensures LineApplied(p0, Name(k) + "=" + value + "\n", known) == Assigned(p0, k, Trimmed(value))
  {
    var line := Name(k) + "=" + Trimmed(value);
    LineTrims(Name(k), value);
    NameIsPlain(k);
    EqualsAfterKey(Name(k), Trimmed(value));
    assert line[..|Name(k)|] == Name(k) && line[|Name(k)| + 1..] == Trimmed(value);
    NameFindsItself(k, known);
  }

  lemma FirstLineLoads(p0: Prefs, body: string, rest: string, known: seq<Key>)
    requires '\n' !in body && |body| < LINE_BUFFER - 1
    ensures Loaded(p0, body + "\n" + rest, known) == Loaded(LineApplied(p0, body + "\n", known), rest, known)
  {
    var file, raw := body + "\n" + rest, body + "\n";
    FgetsTakesLine(body, rest, LINE_BUFFER - 1);
    assert file[..|raw|] == raw && file[|raw|..] == rest;
  }

  lemma AssignedNumber(p0: Prefs, k: Key, i: int)
    requires IsNumber(k) && IsInt(i)
    ensures Assigned(p0, k, Print(i)) ==
            if k.FontZoomStep? then p0.(number := p0.number[k := i], zoomSet := true)
            else p0.(number := p0.number[k := if IsVisible(k) then (if i != 0 then 1 else 0) else i],
                     authoringSet := true)
  {
    PrintReads(i);
  }

  lemma AssignedText(p0: Prefs, k: Key, value: string)
    requires !IsNumber(k) && |value| < Capacity(k)
    ensures Assigned(p0, k, value) == p0.(text := p0.text[k := value])
  {
  }

  lemma AssignsKept(p0: Prefs, p: Prefs, k: Key)
    requires Clean(p) && Complete(p0) && (IsAuthoring(k) ==> p.authoringSet)
    ensures Assigned(p0, k, Trimmed(ValueText(p, k))) == Kept(p0, p, k)
  {
    if IsNumber(k) {
      ValueIsOneLine(p, k);
      AssignedNumber(p0, k, if k.FontZoomStep? && !p.zoomSet then 0 else p.number[k]);
    } else {
      AssignedText(p0, k, Trimmed(p.text[k]));
    }
  }

  lemma LineReadsBack(p0: Prefs, p: Prefs, k: Key, rest: string, known: seq<Key>)
    requires Clean(p) && Complete(p0) && k in known
    ensures Loaded(p0, LineOf(p, k) + rest, known) == Loaded(Kept(p0, p, k), rest, known)
  {
    if IsAuthoring(k) && !p.authoringSet {
      assert "" + rest == rest;
    } else {
      var body := Name(k) + "=" + ValueText(p, k);
      NameLetters(k);
      NameIsPlain(k);
      ValueIsOneLine(p, k);
      FirstLineLoads(p0, body, rest, known);
      LineAssigns(p0, k, ValueText(p, k), known);
      AssignsKept(p0, p, k);
    }
  }

  lemma AllKeysListed(k: Key)
    ensures k in KEYS
  {
  }

  function KeptKeys(p0: Prefs, p: Prefs, keys: seq<Key>): (r: Prefs)
    requires Complete(p) && Complete(p0)
    ensures Complete(r)
    decreases keys
  {
    if keys == [] then p0 else KeptKeys(Kept(p0, p, keys[0]), p, keys[1..])
  }

  lemma {:induction false} KeysReadBack(p0: Prefs, p: Prefs, keys: seq<Key>, known: seq<Key>)
    requires Clean(p) && Complete(p0) && forall k :: k in keys ==> k in known
    ensures Loaded(p0, WrittenKeys(p, keys), known) == KeptKeys(p0, p, keys)
    decreases keys
  {
    if keys != [] {
      LineReadsBack(p0, p, keys[0], WrittenKeys(p, keys[1..]), known);
      KeysReadBack(Kept(p0, p, keys[0]), p, keys[1..], known);
    }
  }

  predicate AnyAuthoring(keys: seq<Key>) {
    keys != [] && (IsAuthoring(keys[0]) || AnyAuthoring(keys[1..]))
  }

  lemma {:induction false} AuthoringListed(keys: seq<Key>, k: Key)
    requires k in keys && IsAuthoring(k)
    ensures AnyAuthoring(keys)
  {
    if !IsAuthoring(keys[0]) {
      AuthoringListed(keys[1..], k);
    }
  }

  lemma {:induction false} KeptKeysFlags(p0: Prefs, p: Prefs, keys: seq<Key>)
    requires Clean(p) && Complete(p0)
    ensures var r := KeptKeys(p0, p, keys);
            && Complete(r)
            && r.zoomSet == (p0.zoomSet || FontZoomStep in keys)
            && r.authoringSet == (p0.authoringSet || (p.authoringSet && AnyAuthoring(keys)))
    decreases keys
  {
    if keys != [] {
      KeptKeysFlags(Kept(p0, p, keys[0]), p, keys[1..]);
    }
  }

  lemma KeptText(p0: Prefs, p: Prefs, j: Key, k: Key)
    requires Complete(p) && Complete(p0) && !IsNumber(k)
    ensures Kept(p0, p, j).text[k] == if j == k then Trimmed(p.text[k]) else p0.text[k]
  {
    var value := if IsNumber(j) then "" else Trimmed(p.text[j]);
    assert Kept(p0, p, j).text == if IsNumber(j) then p0.text else p0.text[j := value];
  }

  lemma KeptNumberOther(p0: Prefs, p: Prefs, j: Key, k: Key)
    requires Complete(p) && Complete(p0) && IsNumber(k) && j != k
    ensures Kept(p0, p, j).number[k] == p0.number[k]
  {
  }

  lemma KeptNumberOwn(p0: Prefs, p: Prefs, k: Key)
    requires Complete(p) && Complete(p0) && IsNumber(k)
    ensures Kept(p0, p, k).number[k] == if k.FontZoomStep? || p.authoringSet then NumberBack(p, k) else p0.number[k]
  {
  }

  lemma {:induction false} KeptKeysText(p0: Prefs, p: Prefs, keys: seq<Key>, k: Key)
    requires Complete(p) && Complete(p0) && !IsNumber(k)
    ensures KeptKeys(p0, p, keys).text[k] == if k in keys then Trimmed(p.text[k]) else p0.text[k]
    decreases keys
  {
    if keys != [] {
      KeptText(p0, p, keys[0], k);
      KeptKeysText(Kept(p0, p, keys[0]), p, keys[1..], k);
      assert k in keys <==> k == keys[0] || k in keys[1..];
    }
  }

  lemma {:induction false} KeptKeysNumber(p0: Prefs, p: Prefs, keys: seq<Key>, k: Key)
    requires Complete(p) && Complete(p0) && IsNumber(k)
    ensures KeptKeys(p0, p, keys).number[k] ==
            if k in keys && (k.FontZoomStep? || p.authoringSet) then NumberBack(p, k) else p0.number[k]
    decreases keys
  {
    if keys != [] {
      if keys[0] == k { KeptNumberOwn(p0, p, k); } else { KeptNumberOther(p0, p, keys[0], k); }
      KeptKeysNumber(Kept(p0, p, keys[0]), p, keys[1..], k);
      assert k in keys <==> k == keys[0] || k in keys[1..];
    }
  }

  /** What a file written from `p` reads back as. */
  function ReadBack(p: Prefs): Prefs
    requires Complete(p)
  {
    Prefs(map k: Key | k in KEYS && !IsNumber(k) :: Trimmed(p.text[k]),
          map k: Key | k in KEYS && IsNumber(k) ::
            if k.FontZoomStep? || p.authoringSet then NumberBack(p, k) else Defaults().number[k],
          true, p.authoringSet)
  }

  lemma DefaultsComplete()
    ensures Complete(Defaults())
  {
    forall k: Key { AllKeysListed(k); }
  }

  lemma SamePrefs(a: Prefs, b: Prefs)
    requires Complete(a) && Complete(b) && a.zoomSet == b.zoomSet && a.authoringSet == b.authoringSet
    ensures a == b <==> forall k :: if IsNumber(k) then a.number[k] == b.number[k] else a.text[k] == b.text[k]
  {
    if forall k :: if IsNumber(k) then a.number[k] == b.number[k] else a.text[k] == b.text[k] {
      assert a.text == b.text;
      assert a.number == b.number;
    }
  }

  lemma ReadBackAt(p: Prefs, k: Key)
    requires Complete(p)
    ensures Complete(ReadBack(p))
    ensures !IsNumber(k) ==> ReadBack(p).text[k] == Trimmed(p.text[k])
    ensures IsNumber(k) ==>
              ReadBack(p).number[k] ==
              if k.FontZoomStep? || p.authoringSet then NumberBack(p, k) else if IsVisible(k) then 1 else 0
  {
    DefaultsComplete();
    forall j: Key { AllKeysListed(j); }
  }

  lemma DefaultAt(k: Key)
    requires IsNumber(k)
    ensures k in Defaults().number && Defaults().number[k] == if IsVisible(k) then 1 else 0
  {
    AllKeysListed(k);
  }

  lemma KeptAllFlags(p: Prefs)
    requires Clean(p)
    ensures Complete(Defaults())
    ensures var r := KeptKeys(Defaults(), p, KEYS); r.zoomSet && r.authoringSet == p.authoringSet
  {
    DefaultsComplete();
    AllKeysListed(ActiveTool);
    AllKeysListed(FontZoomStep);
    AuthoringListed(KEYS, ActiveTool);
    KeptKeysFlags(Defaults(), p, KEYS);
  }

  lemma KeptAllAt(p: Prefs, k: Key, d: Prefs)
    requires Complete(p) && Complete(d) && d == Defaults()
    ensures Complete(ReadBack(p))
    ensures var r := KeptKeys(d, p, KEYS);
            if IsNumber(k) then r.number[k] == ReadBack(p).number[k] else r.text[k] == ReadBack(p).text[k]
  {
    AllKeysListed(k);
    ReadBackAt(p, k);
    if IsNumber(k) {
      DefaultAt(k);
      KeptKeysNumber(d, p, KEYS, k);
    } else {
      KeptKeysText(d, p, KEYS, k);
    }
  }

  /** Round trip: text comes back right-trimmed, integers come back unchanged (visibility flags
      as 0 or 1), and the zoom step always comes back as set. */
  lemma ConfigRoundTrip(p: Prefs)
    requires Clean(p)
    ensures Loaded(Defaults(), Written(p), KEYS) == ReadBack(p)
  {
    KeptAllFlags(p);
    ReadBackAt(p, Workspace);
    KeysReadBack(Defaults(), p, KEYS, KEYS);
    forall k: Key { KeptAllAt(p, k, Defaults()); }
    SamePrefs(KeptKeys(Defaults(), p, KEYS), ReadBack(p));
  }

  lemma TrimmedFixed(s: string)
    ensures Trimmed(s) == s <==> s == "" || !IsTrimmed(s[|s| - 1])
  {
    if s != "" && IsTrimmed(s[|s| - 1]) {
      assert |Trimmed(s[..|s| - 1])| < |s|;
    }
  }

  predicate KeyCanonical(p: Prefs, k: Key)
    requires Complete(p)
  {
    if !IsNumber(k) then p.text[k] == "" || !IsTrimmed(p.text[k][|p.text[k]| - 1])
    else if k.FontZoomStep? then p.zoomSet
    else if IsVisible(k) then p.number[k] == 1 || (p.authoringSet && p.number[k] == 0)
    else p.authoringSet || p.number[k] == 0
  }

  lemma TextSameIffCanonical(p: Prefs, k: Key)
    requires Complete(p) && !IsNumber(k)
    ensures Trimmed(p.text[k]) == p.text[k] <==> KeyCanonical(p, k)
  {
    TrimmedFixed(p.text[k]);
  }

  lemma NumberSameIffCanonical(p: Prefs, k: Key)
    requires Complete(p) && p.zoomSet && IsNumber(k)
    ensures var back := if k.FontZoomStep? || p.authoringSet then NumberBack(p, k) else if IsVisible(k) then 1 else 0;
            back == p.number[k] <==> KeyCanonical(p, k)
  {
  }

  lemma KeySameIffCanonical(p: Prefs, k: Key)
    requires Complete(p) && p.zoomSet
    ensures Complete(ReadBack(p))
    ensures (if IsNumber(k) then ReadBack(p).number[k] == p.number[k] else ReadBack(p).text[k] == p.text[k])
            <==> KeyCanonical(p, k)
  {
    ReadBackAt(p, k);
    if IsNumber(k) { NumberSameIffCanonical(p, k); } else { TextSameIffCanonical(p, k); }
  }

  lemma SameIffCanonical(p: Prefs)
    requires Complete(p)
    ensures ReadBack(p) == p <==> forall k :: KeyCanonical(p, k)
  {
    if p.zoomSet {
      KeySameIffCanonical(p, Workspace);
      forall k { KeySameIffCanonical(p, k); }
      SamePrefs(ReadBack(p), p);
    } else {
      assert !KeyCanonical(p, FontZoomStep);
    }
  }

  /** Saving and reloading is the identity exactly on the preferences with trimmed texts, a
      set zoom step, 0/1 visibility flags, and defaults where nothing was ever set. */
  lemma UnchangedIffCanonical(p: Prefs)
    requires Clean(p)
    ensures Loaded(Defaults(), Written(p), KEYS) == p <==> forall k :: KeyCanonical(p, k)
  {
    ConfigRoundTrip(p);
    SameIffCanonical(p);
  }

  // ---------------------------------------------------------------------------------------
  // The file's format, spelled out.

  /** The names the file goes by. */
  lemma KeyNames()
    ensures Name(Workspace) == "workspace" && Name(RunTarget) == "run_target"
    ensures Name(ThemePreset) == "theme_preset" && Name(FontPreset) == "font_preset"
    ensures Name(FontZoomStep) == "font_zoom_step"
    ensures Name(ToolPanelVisible) == "authoring_tool_panel_visible"
    ensures Name(ControlPanelVisible) == "authoring_control_panel_visible"
    ensures Name(TerminalVisible) == "authoring_terminal_visible" && Name(ActiveTool) == "authoring_active_tool"
    ensures Name(BuildCommand) == "build_command" && Name(BuildArgs) == "build_args"
    ensures Name(BuildWorkdir) == "build_workdir" && Name(BuildOutputDir) == "build_output_dir"
    ensures Name(RunCommand) == "run_command" && Name(RunArgs) == "run_args" && Name(RunWorkdir) == "run_workdir"
  {
  }

  /** One line: its name, the text or the number, the zoom step as 0 while it is not set; the four
      authoring lines only once the presentation was set. */
  lemma LineFormat(p: Prefs, k: Key)
    requires Complete(p)
    ensures IsAuthoring(k) <==>
            k == ToolPanelVisible || k == ControlPanelVisible || k == TerminalVisible || k == ActiveTool
    ensures IsNumber(k) <==> k == FontZoomStep || IsAuthoring(k)
    ensures LineOf(p, k) ==
            if IsAuthoring(k) && !p.authoringSet then ""
            else if !IsNumber(k) then Name(k) + "=" + p.text[k] + "\n"
            else Name(k) + "=" + Print(if k == FontZoomStep && !p.zoomSet then 0 else p.number[k]) + "\n"
  {
  }

  /** The place of each line in the file. */
  function Place(k: Key): nat {
    match k
    case Workspace => 0
    case RunTarget => 1
    case ThemePreset => 2
    case FontPreset => 3
    case FontZoomStep => 4
    case ToolPanelVisible => 5
    case ControlPanelVisible => 6
    case TerminalVisible => 7
    case ActiveTool => 8
    case BuildCommand => 9
    case BuildArgs => 10
    case BuildWorkdir => 11
    case BuildOutputDir => 12
    case RunCommand => 13
    case RunArgs => 14
    case RunWorkdir => 15
  }

  function Concat(lines: seq<string>): string {
    if lines == [] then "" else Concat(lines[..|lines| - 1]) + lines[|lines| - 1]
  }

  function LinesOf(p: Prefs, keys: seq<Key>): (lines: seq<string>)
    requires Complete(p)
    ensures |lines| == |keys|
    ensures forall i :: 0 <= i < |keys| ==> lines[i] == LineOf(p, keys[i])
  {
    seq(|keys|, i requires 0 <= i < |keys| => LineOf(p, keys[i]))
  }

  lemma {:induction false} ConcatCons(line: string, lines: seq<string>)
    ensures Concat([line] + lines) == line + Concat(lines)
  {
    var all := [line] + lines;
    if lines == [] {
      assert all[..0] == [];
    } else {
      assert all[..|lines|] == [line] + lines[..|lines| - 1];
      ConcatCons(line, lines[..|lines| - 1]);
    }
  }

  lemma {:induction false} WrittenInLines(p: Prefs, keys: seq<Key>)
    requires Complete(p)
    ensures WrittenKeys(p, keys) == Concat(LinesOf(p, keys))
  {
    if keys != [] {
      WrittenInLines(p, keys[1..]);
      LinesCons(p, keys);
      ConcatCons(LineOf(p, keys[0]), LinesOf(p, keys[1..]));
    }
  }

  lemma LinesCons(p: Prefs, keys: seq<Key>)
    requires Complete(p) && keys != []
    ensures LinesOf(p, keys) == [LineOf(p, keys[0])] + LinesOf(p, keys[1..])
  {
  }

  lemma KeysInPlace(k: Key)
    ensures |KEYS| == 16 && Place(k) < 16 && KEYS[Place(k)] == k
  {
  }

  /** The whole file: sixteen lines, each in its place. */
  lemma FileFormat(p: Prefs, k: Key, keys: seq<Key>)
    requires Complete(p) && keys == KEYS
    ensures Written(p) == Concat(LinesOf(p, keys))
    ensures |keys| == 16 && LinesOf(p, keys)[Place(k)] == LineOf(p, k)
  {
    WrittenInLines(p, keys);
    KeysInPlace(k);
  }

  /** The bytes a text value may have. */
  function Room(k: Key): nat {
    match k
    case ThemePreset => 127
    case FontPreset => 127
    case BuildCommand => 255
    case BuildArgs => 511
    case RunCommand => 255
    case RunArgs => 511
    case _ => 4095
  }

  lemma RoomIsCapacity(k: Key)
    ensures Room(k) + 1 == Capacity(k)
  {
  }

  /** What one value comes back as. */
  ghost predicate ComesBack(p: Prefs, back: Prefs, k: Key)
    requires Complete(p) && Complete(back)
  {
    if !IsNumber(k) then back.text[k] == Trimmed(p.text[k])
    else if k == FontZoomStep then back.number[k] == if p.zoomSet then p.number[k] else 0
    else if k == ActiveTool then back.number[k] == if p.authoringSet then p.number[k] else 0
    else back.number[k] == if p.authoringSet && p.number[k] == 0 then 0 else 1
  }

  /** The round trip by sizes: any texts without newlines that fit their fields, any 32-bit
      numbers. */
  lemma RoundTripBySizes(p: Prefs, k: Key)
    requires Complete(p)
    requires forall j :: j in p.text ==> '\n' !in p.text[j] && |p.text[j]| <= Room(j)
    requires forall j :: j in p.number ==> -2_147_483_648 <= p.number[j] <= 2_147_483_647
    ensures var back := Loaded(Defaults(), Written(p), KEYS);
            && Complete(back) && back.zoomSet && back.authoringSet == p.authoringSet
            && ComesBack(p, back, k)
  {
    forall j { RoomIsCapacity(j); }
    ConfigRoundTrip(p);
    ReadBackAt(p, k);
  }

  /** White space at the end is blanks, tabs, carriage returns and newlines. */
  lemma TrimmedExactly(s: string, r: string)
    ensures r == Trimmed(s) <==>
            && r <= s && (forall i :: |r| <= i < |s| ==> s[i] in {' ', '\t', '\r', '\n'})
            && (r != "" ==> r[|r| - 1] !in {' ', '\t', '\r', '\n'})
  {
    var t := Trimmed(s);
    if r <= s && |r| < |t| {
      assert t[|t| - 1] == s[|t| - 1];
    } else if r <= s && |r| > |t| {
      assert r[|r| - 1] == s[|r| - 1];
    } else if r <= s {
      assert r == s[..|r|] && t == s[..|t|];
    }
  }

  /** `fgets` stops after the first newline, at the end of the file, or when the buffer is full. */
  lemma {:induction false} FgetsExactly(s: string, room: nat)
    ensures var n := FgetsLength(s, room);
            && '\n' !in s[..if n == 0 then 0 else n - 1]
            && (n == |s| || n == room || (n > 0 && s[n - 1] == '\n'))
  {
    if s != [] && room > 0 && s[0] != '\n' {
      FgetsExactly(s[1..], room - 1);
      var m := FgetsLength(s[1..], room - 1);
      assert forall i :: 1 <= i < |s| ==> s[i] == s[1..][i - 1];
    }
  }

  /** A line is read 4607 bytes at a time; each piece counts as a line of its own. */
  lemma LongLineIsSplit(p: Prefs, piece: string, rest: string)
    requires |piece| == 4607 && '\n' !in piece
    ensures Loaded(p, piece + rest, KEYS) == Loaded(LineApplied(p, piece, KEYS), rest, KEYS)
  {
    var file := piece + rest;
    var n := FgetsLength(file, 4607);
    FgetsExactly(file, 4607);
    assert file[..4607] == piece && file[4607..] == rest;
    assert forall i :: 0 <= i < 4607 ==> file[i] == piece[i];
    assert n == 4607;
  }

  /** With an empty file everything is as at first: no text, visible panels, nothing set. */
  lemma EmptyFile(k: Key)
    ensures Complete(Defaults()) && Loaded(Defaults(), "", KEYS) == Defaults()
    ensures var p := Defaults();
            && !p.zoomSet && !p.authoringSet
            && if IsNumber(k) then p.number[k] == (if k == FontZoomStep || k == ActiveTool then 0 else 1)
               else p.text[k] == ""
  {
    DefaultsComplete();
    if IsNumber(k) { DefaultAt(k); }
  }

  lemma {:induction false} KeyMatchesIff(key: string, name: string)
    ensures KeyMatches(key, name) <==> key <= name
  {
    if key != [] && name != [] {
      KeyMatchesIff(key[1..], name[1..]);
      assert key == [key[0]] + key[1..] && name == [name[0]] + name[1..];
      assert key <= name <==> key[0] == name[0] && key[1..] <= name[1..];
    }
  }

  ghost predicate IsFirst(key: string, keys: seq<Key>, i: nat)
    requires i < |keys|
  {
    key <= Name(keys[i]) && forall j :: 0 <= j < i ==> !(key <= Name(keys[j]))
  }

  /** A key on a line stands for the first known name that begins with it. */
  lemma {:induction false} BranchExactly(key: string, keys: seq<Key>)
    ensures match Branch(key, keys)
            case None => forall i :: 0 <= i < |keys| ==> !(key <= Name(keys[i]))
            case Some(k) =>
              exists i :: 0 <= i < |keys| && IsFirst(key, keys, i) && keys[i] == k
  {
    if keys != [] {
      KeyMatchesIff(key, Name(keys[0]));
      if !KeyMatches(key, Name(keys[0])) {
        var rest := keys[1..];
        assert forall j :: 1 <= j < |keys| ==> keys[j] == rest[j - 1];
        BranchExactly(key, rest);
        var r := Branch(key, rest);
        if r.Some? {
          var i :| 0 <= i < |rest| && IsFirst(key, rest, i) && rest[i] == r.value;
          assert IsFirst(key, keys, i + 1);
        }
      }
    }
  }

  /** A line without `=`, or whose text before it begins no known name, changes nothing. */
  lemma LineIgnored(p: Prefs, raw: string)
    requires '=' !in Trimmed(raw) || Branch(Trimmed(raw)[..FirstEquals(Trimmed(raw))], KEYS).None?
    ensures LineApplied(p, raw, KEYS) == p
  {
  }

  /** What one line sets, key by key: the text cut to its field, the number if one could be read,
      and a visibility flag in any case. */
  ghost predicate Sets(p: Prefs, q: Prefs, k: Key, v: string) {
    var (n, read) := Strtol(v);
    if !IsNumber(k) then q == p.(text := p.text[k := if |v| <= Room(k) then v else v[..Room(k)]])
    else if k in {ToolPanelVisible, ControlPanelVisible, TerminalVisible} then
      q == p.(number := p.number[k := if n == 0 then 0 else 1], authoringSet := true)
    else if !read then q == p
    else if k == FontZoomStep then q == p.(number := p.number[k := CastInt(n)], zoomSet := true)
    else q == p.(number := p.number[k := CastInt(n)], authoringSet := true)
  }

  lemma AssignedSets(p: Prefs, k: Key, v: string)
    ensures Sets(p, Assigned(p, k, v), k, v)
  {
    RoomIsCapacity(k);
  }

  lemma LineSets(p: Prefs, k: Key, value: string)
    requires Complete(p)
    ensures Sets(p, LineApplied(p, Name(k) + "=" + value + "\n", KEYS), k, Trimmed(value))
  {
    AllKeysListed(k);
    LineAssigns(p, k, value, KEYS);
    AssignedSets(p, k, Trimmed(value));
  }

  // ---------------------------------------------------------------------------------------

  lemma WrittenNext(p: Prefs, keys: seq<Key>, i: nat, file: string)
    requires Complete(p) && i < |keys|
    ensures file + WrittenKeys(p, keys[i..]) == file + LineOf(p, keys[i]) + WrittenKeys(p, keys[i + 1..])
  {
    assert keys[i..][1..] == keys[i + 1..];
    Regroup(file, LineOf(p, keys[i]), WrittenKeys(p, keys[i + 1..]));
  }

  lemma Regroup(a: string, b: string, c: string)
    ensures a + (b + c) == a + b + c
  {
  }

  lemma FoldedStep(p: Prefs, q: Prefs, rest: string, n: nat, apply: (Prefs, string) -> Prefs)
    requires rest != "" && n == FgetsLength(rest, LINE_BUFFER - 1) && q == apply(p, rest[..n])
    ensures 0 < n <= |rest| && Folded(p, rest, apply) == Folded(q, rest[n..], apply)
  {
  }

  class Preferences {
    var text: map<Key, string>
    var number: map<Key, int>
    var zoomSet: bool
    var authoringSet: bool

    function Value(): Prefs
      reads this
    {
      Prefs(text, number, zoomSet, authoringSet)
    }

    constructor ()
      ensures Value() == Defaults()
    {
      text, number, zoomSet, authoringSet := Defaults().text, Defaults().number, false, false;
    }

    method WriteKeys(keys: seq<Key>) returns (file: string)
      requires Complete(Value())
      ensures file == WrittenKeys(Value(), keys)
    {
      file := "";
      var i := 0;
      while i < |keys|
        invariant i <= |keys|
        invariant WrittenKeys(Value(), keys) == file + WrittenKeys(Value(), keys[i..])
      {
        var line := "";
        if !IsAuthoring(keys[i]) || authoringSet {
          line := Name(keys[i]) + "=" + ValueText(Value(), keys[i]) + "\n";
        }
        WrittenNext(Value(), keys, i, file);
        file := file + line;
        i := i + 1;
      }
    }

    /** `writeConfigContents`. */
    method WriteConfigContents() returns (file: string)
      requires Complete(Value())
      ensures file == Written(Value())
    {
      file := WriteKeys(KEYS);
    }

    method Assign(k: Key, value: string)
      modifies this
      ensures Value() == Assigned(old(Value()), k, value)
    {
      var (v, read) := Strtol(value);
      if !IsNumber(k) {
        text := text[k := Copied(value, k)];
      } else if IsVisible(k) {
        number, authoringSet := number[k := if v != 0 then 1 else 0], true;
      } else if read {
        number := number[k := CastInt(v)];
        if k.FontZoomStep? { zoomSet := true; } else { authoringSet := true; }
      }
    }

    method ApplyLine(raw: string, known: seq<Key>)
      modifies this
      ensures Value() == LineApplied(old(Value()), raw, known)
    {
      var line := Trimmed(raw);
      var equals := FirstEquals(line);
      if line == "" || equals == |line| { return; }
      var branch, value := Branch(line[..equals], known), line[equals + 1..];
      if branch.Some? {
        assert LineApplied(Value(), raw, known) == Assigned(Value(), branch.value, value);
        Assign(branch.value, value);
      }
    }

    /** `loadConfigFile`, the first time it is called. */
    method LoadConfigFile(file: string)
      modifies this
      ensures Value() == Loaded(Defaults(), file, KEYS)
    {
      text, number, zoomSet, authoringSet := Defaults().text, Defaults().number, false, false;
      ReadLines(file, KEYS, (p, raw) => LineApplied(p, raw, KEYS));
    }

    /** One turn of the `fgets` loop. */
    method ReadLine(rest: string, known: seq<Key>, ghost apply: (Prefs, string) -> Prefs) returns (n: nat)
      requires rest != ""
      requires forall p, raw {:trigger LineApplied(p, raw, known)} :: apply(p, raw) == LineApplied(p, raw, known)
      modifies this
      ensures 0 < n <= |rest|
      ensures Folded(Value(), rest[n..], apply) == Folded(old(Value()), rest, apply)
    {
      ghost var before := Value();
      n := FgetsLength(rest, LINE_BUFFER - 1);
      var raw := rest[..n];
      ApplyLine(raw, known);
      FoldedStep(before, Value(), rest, n, apply);
    }

    method ReadLines(file: string, known: seq<Key>, ghost apply: (Prefs, string) -> Prefs)
      requires forall p, raw {:trigger LineApplied(p, raw, known)} :: apply(p, raw) == LineApplied(p, raw, known)
      modifies this
      ensures Value() == Folded(old(Value()), file, apply)
    {
      var at := 0;
      assert file[0..] == file;
      while at < |file|
        invariant at <= |file|
        invariant Folded(old(Value()), file, apply) == Folded(Value(), file[at..], apply)
      {
        var n := ReadLine(file[at..], known, apply);
        assert file[at..][n..] == file[at + n..];
        at := at + n;
      }
    }
  }
}
