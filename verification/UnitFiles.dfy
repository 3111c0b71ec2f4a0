/** Unit files (units.py): the printer and the parser of a phone's declared state. */
module UnitFiles {
  import opened Prelude

  datatype Unit = Unit(serial: Option<string>, title: string, settings: map<string, string>)

  const RESERVED_KEY_PREFIX := "unit."
  const BLANK := Unit(None, "", map[])

  predicate IsBreak(c: char) {
    || '\U{000A}' <= c <= '\U{000D}'
    || '\U{001C}' <= c <= '\U{001E}'
    || c in {'\U{0085}', '\U{2028}', '\U{2029}'}
  }

  predicate IsSpace(c: char) {
    || IsBreak(c)
    || c in {'\U{0009}', '\U{001F}', '\U{0020}', '\U{00A0}', '\U{1680}', '\U{202F}', '\U{205F}', '\U{3000}'}
    || '\U{2000}' <= c <= '\U{200A}'
  }

  predicate IsKeyChar(c: char) {
    'A' <= c <= 'Z' || 'a' <= c <= 'z' || '0' <= c <= '9' || c in {'_', '.', '-'}
  }

  const KEY_CHARS := "ABCDEFGHIJKLM" + "NOPQRSTUVWXYZ" + "abcdefghijklm" + "nopqrstuvwxyz" + "0123456789" + "_.-"

  /** What a key is made of, and what counts as a space and as a line break, character by character. */
  lemma CharactersAre(c: char)
    ensures IsKeyChar(c) <==> c in KEY_CHARS
    ensures IsBreak(c) <==>
            c as int in {0x0A, 0x0B, 0x0C, 0x0D, 0x1C, 0x1D, 0x1E, 0x85, 0x2028, 0x2029}
    ensures IsSpace(c) <==>
            IsBreak(c) || c as int in {0x09, 0x1F, 0x20, 0xA0, 0x1680, 0x2000, 0x2001, 0x2002, 0x2003, 0x2004,
                                       0x2005, 0x2006, 0x2007, 0x2008, 0x2009, 0x200A, 0x202F, 0x205F, 0x3000}
  {
    if IsKeyChar(c) {
      KeyCharIsListed(c);
    }
  }

  lemma KeyCharIsListed(c: char)
    requires IsKeyChar(c)
    ensures c in KEY_CHARS
  {
    var i := if 'A' <= c <= 'Z' then c as int - 'A' as int
             else if 'a' <= c <= 'z' then 26 + (c as int - 'a' as int)
             else if '0' <= c <= '9' then 52 + (c as int - '0' as int)
             else if c == '_' then 62 else if c == '.' then 63 else 64;
    assert KEY_CHARS[i] == c;
  }

  // -------------------------------------------------------------------- lines

  /** The text cut at every line break. */
  function Lines(text: string): seq<string> {
    if text == "" then [""]
    else
      var rest := Lines(text[1..]);
      if IsBreak(text[0]) then [""] + rest
      else if rest == [] then [[text[0]]]
      else [[text[0]] + rest[0]] + rest[1..]
  }

  function Joined(lines: seq<string>): string {
    if lines == [] then "" else lines[0] + "\n" + Joined(lines[1..])
  }

  predicate SingleLine(s: string) {
    forall c :: c in s ==> !IsBreak(c)
  }

  lemma {:induction false} FirstLine(line: string, rest: string)
    requires SingleLine(line)
    ensures Lines(line + "\n" + rest) == [line] + Lines(rest)
  {
    var text := line + "\n" + rest;
    if line == "" {
      assert text[1..] == rest;
    } else {
      FirstLine(line[1..], rest);
      assert text[1..] == line[1..] + "\n" + rest;
      assert line == [line[0]] + line[1..];
    }
  }

  lemma {:induction false} LinesUndoJoined(lines: seq<string>)
    requires forall l :: l in lines ==> SingleLine(l)
    ensures Lines(Joined(lines)) == lines + [""]
  {
    if lines != [] {
      FirstLine(lines[0], Joined(lines[1..]));
      LinesUndoJoined(lines[1..]);
    }
  }

  lemma {:induction false} LinesAreSingle(text: string)
    ensures forall l :: l in Lines(text) ==> SingleLine(l)
    ensures Lines(text) != []
  {
    if text != "" {
      LinesAreSingle(text[1..]);
      var rest := Lines(text[1..]);
      if !IsBreak(text[0]) {
        assert SingleLine([text[0]] + rest[0]) by {
          assert rest[0] in rest;
        }
        assert forall l :: l in rest[1..] ==> l in rest;
      }
    }
  }

  // ------------------------------------------------------------------ one line

  function TrimLeft(s: string): string {
    if s != "" && IsSpace(s[0]) then TrimLeft(s[1..]) else s
  }

  function TrimRight(s: string): string {
    if s != "" && IsSpace(s[|s| - 1]) then TrimRight(s[..|s| - 1]) else s
  }

  predicate Trimmed(s: string) {
    s == "" || (!IsSpace(s[0]) && !IsSpace(s[|s| - 1]))
  }

  function KeyLength(s: string): nat {
    if s != "" && IsKeyChar(s[0]) then 1 + KeyLength(s[1..]) else 0
  }

  lemma {:induction false} KeyLengthFits(s: string)
    ensures KeyLength(s) <= |s|
    ensures forall i :: 0 <= i < KeyLength(s) ==> IsKeyChar(s[i])
  {
    if s != "" && IsKeyChar(s[0]) {
      KeyLengthFits(s[1..]);
      forall i | 0 <= i < KeyLength(s)
        ensures IsKeyChar(s[i])
      {
        if i > 0 {
          assert s[i] == s[1..][i - 1];
        }
      }
    }
  }

  /** `^\s*([A-Za-z0-9_.-]+)\s*=\s*(.*?)\s*$` */
  function ParseLine(line: string): Option<(string, string)> {
    var s := TrimLeft(line);
    KeyLengthFits(s);
    var n := KeyLength(s);
    var rest := TrimLeft(s[n..]);
    if n == 0 || rest == "" || rest[0] != '=' then None
    else Some((s[..n], TrimRight(TrimLeft(rest[1..]))))
  }

  predicate Skipped(line: string) {
    var s := TrimLeft(line);
    s == "" || s[0] == '#'
  }

  predicate Reserved(key: string) {
    RESERVED_KEY_PREFIX <= key
  }

  function ApplyLine(u: Unit, line: string): Unit {
    if Skipped(line) then u
    else
      match ParseLine(line)
      case None => u
      case Some((key, value)) =>
        if key == "unit.serial" then u.(serial := if value == "" then None else Some(value))
        else if key == "unit.label" then u.(title := value)
        else if Reserved(key) then u
        else u.(settings := u.settings[key := value])
  }

  function ApplyLines(u: Unit, lines: seq<string>): Unit {
    if lines == [] then u else ApplyLine(ApplyLines(u, lines[..|lines| - 1]), lines[|lines| - 1])
  }

  function Load(text: string): Unit {
    ApplyLines(BLANK, Lines(text))
  }

  method LoadUnit(text: string) returns (u: Unit)
    ensures u == Load(text)
  {
    var lines := Lines(text);
    u := BLANK;
    for i := 0 to |lines|
      invariant u == ApplyLines(BLANK, lines[..i])
    {
      assert lines[..i + 1][..i] == lines[..i];
      if Skipped(lines[i]) {
        continue;
      }
      var parsed := ParseLine(lines[i]);
      if parsed.None? {
        continue;
      }
      var (key, value) := parsed.value;
      if key == "unit.serial" {
        u := u.(serial := if value == "" then None else Some(value));
      } else if key == "unit.label" {
        u := u.(title := value);
      } else if !Reserved(key) {
        u := u.(settings := u.settings[key := value]);
      }
    }
    assert lines[..|lines|] == lines;
  }

  // ------------------------------------------------------------------ printing

  function SettingLines(settings: map<string, string>, keys: seq<string>): seq<string>
    requires forall k :: k in keys ==> k in settings
  {
    seq(|keys|, i requires 0 <= i < |keys| => keys[i] + "=" + settings[keys[i]])
  }

  /** A line of the header: a title or a remark, which the parser skips. */
  predicate IsRemark(line: string) {
    line != "" && line[0] == '#' && SingleLine(line)
  }

  /** The lines written for a unit under a header, its setting keys in the file's order. */
  function SavedLines(header: seq<string>, u: Unit, keys: seq<string>): seq<string>
    requires forall k :: k in keys ==> k in u.settings
  {
    header + [""]
    + (["unit.serial=" + u.serial.GetOr("")] + ["unit.label=" + u.title] + [""])
    + SettingLines(u.settings, keys)
  }

  function Save(header: seq<string>, u: Unit, keys: seq<string>): string
    requires forall k :: k in keys ==> k in u.settings
  {
    Joined(SavedLines(header, u, keys))
  }

  predicate PlainValue(v: string) {
    Trimmed(v) && SingleLine(v)
  }

  predicate PlainKey(k: string) {
    k != "" && (forall c :: c in k ==> IsKeyChar(c)) && !Reserved(k)
  }

  /** The units a file can hold. */
  ghost predicate Printable(u: Unit) {
    && (u.serial.Some? ==> u.serial.value != "" && PlainValue(u.serial.value))
    && PlainValue(u.title)
    && forall k :: k in u.settings ==> PlainKey(k) && PlainValue(u.settings[k])
  }

  lemma {:induction false} KeyStopsAtEquals(k: string, rest: string)
    requires forall c :: c in k ==> IsKeyChar(c)
    ensures KeyLength(k + "=" + rest) == |k|
  {
    var s := k + "=" + rest;
    if k != "" {
      assert s[1..] == k[1..] + "=" + rest;
      KeyStopsAtEquals(k[1..], rest);
    }
  }

  /** A printed setting is parsed back, and its line is neither blank nor a comment. */
  lemma PrintedLineParses(k: string, v: string)
    requires k != "" && (forall c :: c in k ==> IsKeyChar(c)) && Trimmed(v)
    ensures ParseLine(k + "=" + v) == Some((k, v))
    ensures !Skipped(k + "=" + v)
  {
    var line := k + "=" + v;
    assert line[0] == k[0] && k[0] in k;
    assert TrimLeft(line) == line;
    KeyStopsAtEquals(k, v);
    assert line[..|k|] == k;
    assert line[|k|..] == "=" + v;
    assert ("=" + v)[1..] == v;
    assert TrimLeft(v) == v && TrimRight(v) == v;
  }

  /** What a printed line says: the serial, the title, or a setting; other reserved keys say nothing. */
  lemma PrintedLineSays(u: Unit, k: string, v: string)
    requires k != "" && (forall c :: c in k ==> IsKeyChar(c)) && Trimmed(v)
    ensures ApplyLine(u, k + "=" + v) ==
            (if k == "unit.serial" then Unit(if v == "" then None else Some(v), u.title, u.settings)
             else if k == "unit.label" then Unit(u.serial, v, u.settings)
             else if "unit." <= k then u
             else Unit(u.serial, u.title, u.settings[k := v]))
  {
    PrintedLineParses(k, v);
  }

  lemma {:induction false} SkippedLinesChangeNothing(u: Unit, lines: seq<string>)
    requires forall l :: l in lines ==> Skipped(l)
    ensures ApplyLines(u, lines) == u
  {
    if lines != [] {
      assert lines[|lines| - 1] in lines;
      SkippedLinesChangeNothing(u, lines[..|lines| - 1]);
    }
  }

  lemma {:induction false} ApplyJoins(u: Unit, a: seq<string>, b: seq<string>)
    ensures ApplyLines(u, a + b) == ApplyLines(ApplyLines(u, a), b)
  {
    if b == [] {
      assert a + b == a;
    } else {
      ApplyJoins(u, a, b[..|b| - 1]);
      assert (a + b)[..|a + b| - 1] == a + b[..|b| - 1];
    }
  }

  lemma SettingLineApplies(u: Unit, k: string, v: string)
    requires PlainKey(k) && PlainValue(v)
    ensures ApplyLine(u, k + "=" + v) == u.(settings := u.settings[k := v])
  {
    PrintedLineParses(k, v);
    assert RESERVED_KEY_PREFIX <= "unit.serial" && RESERVED_KEY_PREFIX <= "unit.label";
  }

  lemma OneMoreSetting(have: map<string, string>, settings: map<string, string>, keys: seq<string>, k: string)
    requires k in settings && forall x :: x in keys ==> x in settings
    ensures (have + (map x | x in keys :: settings[x]))[k := settings[k]]
            == have + (map x | x in keys + [k] :: settings[x])
  {}

  lemma {:induction false} SettingsComeBack(u: Unit, settings: map<string, string>, keys: seq<string>)
    requires forall k :: k in keys ==> k in settings && PlainKey(k) && PlainValue(settings[k])
    ensures ApplyLines(u, SettingLines(settings, keys))
            == u.(settings := u.settings + map k | k in keys :: settings[k])
  {
    if keys == [] {
      assert u.settings + (map k | k in keys :: settings[k]) == u.settings;
    } else {
      var init, last := keys[..|keys| - 1], keys[|keys| - 1];
      assert keys == init + [last];
      SettingsComeBack(u, settings, init);
      var lines := SettingLines(settings, keys);
      assert lines[..|lines| - 1] == SettingLines(settings, init);
      assert lines[|lines| - 1] == last + "=" + settings[last];
      SettingLineApplies(ApplyLines(u, SettingLines(settings, init)), last, settings[last]);
      OneMoreSetting(u.settings, settings, init, last);
      assert keys == init + [last];
    }
  }

  lemma HeaderIsSkipped(header: seq<string>)
    requires forall l :: l in header ==> IsRemark(l)
    ensures forall l :: l in header + [""] ==> Skipped(l)
  {
    forall l | l in header
      ensures Skipped(l)
    {
      assert IsRemark(l);
      assert TrimLeft(l) == l;
    }
    assert Skipped("");
  }

  lemma NamedLinesComeBack(u: Unit)
    requires Printable(u)
    ensures ApplyLines(BLANK, ["unit.serial=" + u.serial.GetOr("")] + ["unit.label=" + u.title] + [""])
            == Unit(u.serial, u.title, map[])
  {
    var serial, title := "unit.serial=" + u.serial.GetOr(""), "unit.label=" + u.title;
    PrintedLineParses("unit.serial", u.serial.GetOr(""));
    PrintedLineParses("unit.label", u.title);
    assert "unit.serial" + "=" + u.serial.GetOr("") == serial;
    assert "unit.label" + "=" + u.title == title;
    assert [serial][..0] == [] && ([serial] + [title])[..1] == [serial];
    assert ([serial] + [title] + [""])[..2] == [serial] + [title];
    assert ApplyLines(BLANK, [serial]) == Unit(u.serial, "", map[]);
    assert ApplyLines(BLANK, [serial] + [title]) == Unit(u.serial, u.title, map[]);
    assert Skipped("");
  }

  lemma JoinedIsSingle(a: string, b: string)
    requires SingleLine(a) && SingleLine(b)
    ensures SingleLine(a + b)
  {}

  lemma SettingLinesAreSingle(settings: map<string, string>, keys: seq<string>)
    requires forall k :: k in keys ==> k in settings && PlainKey(k) && PlainValue(settings[k])
    ensures forall l :: l in SettingLines(settings, keys) ==> SingleLine(l)
  {
    var lines := SettingLines(settings, keys);
    forall l | l in lines
      ensures SingleLine(l)
    {
      var i :| 0 <= i < |lines| && lines[i] == l;
      assert keys[i] in keys;
      JoinedIsSingle(keys[i], "=");
      JoinedIsSingle(keys[i] + "=", settings[keys[i]]);
    }
  }

  lemma SavedLinesAreSingle(header: seq<string>, u: Unit, keys: seq<string>)
    requires Printable(u) && (forall l :: l in header ==> IsRemark(l)) && forall k :: k in keys ==> k in u.settings
    ensures forall l :: l in SavedLines(header, u, keys) ==> SingleLine(l)
  {
    JoinedIsSingle("unit.serial=", u.serial.GetOr(""));
    JoinedIsSingle("unit.label=", u.title);
    SettingLinesAreSingle(u.settings, keys);
  }

  /** Loading a saved file gives the unit back, whatever its header and the order of its settings. */
  lemma LoadUndoesSave(header: seq<string>, u: Unit, keys: seq<string>)
    requires Printable(u) && forall l :: l in header ==> IsRemark(l)
    requires forall k :: k in keys <==> k in u.settings
    ensures Load(Save(header, u, keys)) == u
  {
    var lines := SavedLines(header, u, keys);
    SavedLinesAreSingle(header, u, keys);
    LinesUndoJoined(lines);
    var named := ["unit.serial=" + u.serial.GetOr("")] + ["unit.label=" + u.title] + [""];
    ApplyJoins(BLANK, lines, [""]);
    ApplyJoins(BLANK, header + [""] + named, SettingLines(u.settings, keys));
    ApplyJoins(BLANK, header + [""], named);
    HeaderIsSkipped(header);
    SkippedLinesChangeNothing(BLANK, header + [""]);
    NamedLinesComeBack(u);
    SettingsComeBack(Unit(u.serial, u.title, map[]), u.settings, keys);
    assert map[] + (map k | k in keys :: u.settings[k]) == u.settings;
    SkippedLinesChangeNothing(u, [""]);
  }

  // ------------------------------------------------ only these units come back

  lemma {:induction false} TrimLeftIsSuffix(s: string)
    ensures TrimLeft(s) == "" || !IsSpace(TrimLeft(s)[0])
    ensures forall c :: c in TrimLeft(s) ==> c in s
  {
    if s != "" && IsSpace(s[0]) {
      TrimLeftIsSuffix(s[1..]);
    }
  }

  lemma {:induction false} TrimRightIsPrefix(s: string)
    ensures TrimRight(s) <= s
    ensures TrimRight(s) == "" || !IsSpace(TrimRight(s)[|TrimRight(s)| - 1])
  {
    if s != "" && IsSpace(s[|s| - 1]) {
      TrimRightIsPrefix(s[..|s| - 1]);
    }
  }

  lemma ParsedIsPlain(line: string)
    requires SingleLine(line)
    ensures ParseLine(line).Some? ==>
              && ParseLine(line).value.0 != ""
              && (forall c :: c in ParseLine(line).value.0 ==> IsKeyChar(c))
              && PlainValue(ParseLine(line).value.1)
  {
    var s := TrimLeft(line);
    TrimLeftIsSuffix(line);
    KeyLengthFits(s);
    var n := KeyLength(s);
    var rest := TrimLeft(s[n..]);
    TrimLeftIsSuffix(s[n..]);
    if n > 0 && rest != "" && rest[0] == '=' {
      var tail := TrimLeft(rest[1..]);
      TrimLeftIsSuffix(rest[1..]);
      TrimRightIsPrefix(tail);
      var value := TrimRight(tail);
      forall c | c in value
        ensures !IsBreak(c)
      {
        assert c in tail;
        assert c in rest[1..];
        assert c in rest;
        assert c in s[n..];
        assert c in s;
      }
      assert value != "" ==> value[0] == tail[0];
    }
  }

  lemma {:induction false} LoadedLinesArePrintable(lines: seq<string>)
    requires forall l :: l in lines ==> SingleLine(l)
    ensures Printable(ApplyLines(BLANK, lines))
  {
    if lines != [] {
      var last := lines[|lines| - 1];
      assert last in lines;
      LoadedLinesArePrintable(lines[..|lines| - 1]);
      ParsedIsPlain(last);
    }
  }

  /** Whatever text is loaded, the unit can be printed; so saving and loading again is the identity on loaded units. */
  lemma LoadedIsPrintable(text: string)
    ensures Printable(Load(text))
  {
    LinesAreSingle(text);
    LoadedLinesArePrintable(Lines(text));
  }

  /**
   * The exact round trip, under any header of remarks: saving and loading gives
   * the unit back if and only if its values are trimmed single lines, its serial
   * not an empty string, and its keys plain and not reserved.
   */
  lemma RoundTripIff(header: seq<string>, u: Unit, keys: seq<string>)
    requires forall l :: l in header ==> IsRemark(l)
    requires forall k :: k in keys <==> k in u.settings
    ensures Load(Save(header, u, keys)) == u <==> Printable(u)
  {
    LoadedIsPrintable(Save(header, u, keys));
    if Printable(u) {
      LoadUndoesSave(header, u, keys);
    }
  }
}
