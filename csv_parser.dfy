/** The CSV camera parser: drops blank and `ERROR` rows, splits the camera
    text into a code and a name (the code pattern first, the first space as
    a fallback) and extracts the camera number from the code. The CSV
    tokenising itself is done by a library; its output arrives here as a
    sequence of rows. */
module CsvParser {
  import opened Wrappers
  import opened Text
  import opened Models
  import opened Seqs

  // ------------------------------------------------------------ row filter

  /** A row is parsed only when its camera text is not blank and does not
      start with `ERROR` in any letter case. The test looks at the text as
      read, before any trimming. */
  predicate IsValidRow(row: CsvRow) {
    !IsBlank(row.camera) && !StartsWithIgnoreCase(row.camera, "ERROR")
  }

  // ------------------------------------------- the code pattern, declared

  /** `s` matches `[A-Za-z]+(-[A-Za-z]+)*`: letters and single hyphens,
      beginning and ending with a letter. */
  ghost predicate IsLetterGroups(s: string) {
    |s| > 0 && IsLetter(s[0]) && IsLetter(s[|s| - 1]) &&
    (forall i :: 0 <= i < |s| ==> IsLetter(s[i]) || s[i] == '-') &&
    (forall i :: 0 <= i < |s| - 1 && s[i] == '-' ==> s[i + 1] != '-')
  }

  /** `s` matches `[A-Za-z]+(?:-[A-Za-z]+)*-\d+`, the hyphen before the
      digits being at `h`. */
  ghost predicate IsCodeAt(s: string, h: nat) {
    h + 1 < |s| && s[h] == '-' && IsLetterGroups(s[..h]) && AllDigits(s[h + 1..])
  }

  /** `s` matches the code pattern. */
  ghost predicate IsCode(s: string) {
    exists h: nat :: IsCodeAt(s, h)
  }

  /** `u` matches `.*$`: no line feed, except one as the very last character
      (`$` also matches before a final line feed). */
  predicate LineTail(u: string) {
    forall i :: 0 <= i < |u| - 1 ==> u[i] != '\n'
  }

  /** `^(?<code>…)(?:\s+|-\s*)(?<name>.*)$` matches `t` with the code group
      `t[..k]`: the code is followed by white space or by a hyphen, then by
      further white space up to position `j`, then by one line. */
  ghost predicate CodeAndNameMatch(t: string, k: nat) {
    k < |t| && IsCode(t[..k]) && (IsWhiteSpace(t[k]) || t[k] == '-') &&
    exists j :: k < j <= |t| && IsBlank(t[k + 1..j]) && LineTail(t[j..])
  }

  // ---------------------------------------------- the code pattern, scanned

  /** The end of the run of letters that starts at `i`. */
  function LetterRunEnd(t: string, i: nat): (r: nat)
    requires i <= |t|
    ensures i <= r <= |t| && (r == |t| || !IsLetter(t[r]))
    ensures forall m :: i <= m < r ==> IsLetter(t[m])
    decreases |t| - i
  {
    if i < |t| && IsLetter(t[i]) then LetterRunEnd(t, i + 1) else i
  }

  /** The end of the run of digits that starts at `i`. */
  function DigitRunEnd(t: string, i: nat): (r: nat)
    requires i <= |t|
    ensures i <= r <= |t| && (r == |t| || !IsDigit(t[r]))
    ensures forall m :: i <= m < r ==> IsDigit(t[m])
    decreases |t| - i
  {
    if i < |t| && IsDigit(t[i]) then DigitRunEnd(t, i + 1) else i
  }

  /** Continue the code scan after a run of letters ending at `i`: a hyphen
      followed by either another run of letters or the final run of digits. */
  function ScanGroups(t: string, i: nat): Option<nat>
    requires i <= |t|
    decreases |t| - i
  {
    if i + 1 < |t| && t[i] == '-' then
      if IsLetter(t[i + 1]) then ScanGroups(t, LetterRunEnd(t, i + 1))
      else if IsDigit(t[i + 1]) then Some(DigitRunEnd(t, i + 1))
      else None
    else None
  }

  /** The length of the code at the start of `t`, if `t` starts with one.
      The letter runs and the digit run of the pattern are always taken
      whole, so one left-to-right scan finds the only candidate. */
  function ScanCode(t: string): Option<nat> {
    if t != [] && IsLetter(t[0]) then ScanGroups(t, LetterRunEnd(t, 0)) else None
  }

  lemma LetterGroupsExtend(t: string, i: nat, j: nat)
    requires 0 < i && i + 1 < j <= |t|
    requires IsLetterGroups(t[..i]) && t[i] == '-'
    requires forall m :: i + 1 <= m < j ==> IsLetter(t[m])
    ensures IsLetterGroups(t[..j])
  {
    var s := t[..j];
    assert t[..i] == s[..i];
    forall m | 0 <= m < |s| - 1 && s[m] == '-' ensures s[m + 1] != '-' {
      if m < i - 1 {
        assert t[..i][m] == '-';
      }
    }
  }

  lemma {:induction false} ScanGroupsSound(t: string, i: nat)
    requires 0 < i <= |t| && IsLetterGroups(t[..i])
    ensures ScanGroups(t, i).Some? ==>
      var k := ScanGroups(t, i).value;
      k <= |t| && IsCode(t[..k]) && (k == |t| || !IsDigit(t[k]))
    decreases |t| - i
  {
    if i + 1 < |t| && t[i] == '-' {
      if IsLetter(t[i + 1]) {
        var j := LetterRunEnd(t, i + 1);
        LetterGroupsExtend(t, i, j);
        ScanGroupsSound(t, j);
      } else if IsDigit(t[i + 1]) {
        var k := DigitRunEnd(t, i + 1);
        var s := t[..k];
        assert s[..i] == t[..i];
        assert IsCodeAt(s, i);
      }
    }
  }

  lemma {:induction false} ScanGroupsComplete(t: string, i: nat, h: nat, k: nat)
    requires 0 < i <= h && k <= |t| && IsCodeAt(t[..k], h)
    requires k == |t| || !IsDigit(t[k])
    requires t[i] == '-'
    ensures ScanGroups(t, i) == Some(k)
    decreases h - i
  {
    var s := t[..k];
    assert s[..h] == t[..h];
    if i == h {
      assert IsDigit(s[h + 1..][0]);
      forall m | h + 1 <= m < k ensures IsDigit(t[m]) {
        assert s[h + 1..][m - h - 1] == t[m];
      }
      var r := DigitRunEnd(t, h + 1);
      assert !(r < k) && !(k < r);
    } else {
      assert i + 1 < h by {
        assert IsLetter(t[..h][h - 1]);
      }
      assert IsLetter(t[i + 1]) by {
        assert t[..h][i] == '-';
        assert t[..h][i + 1] == t[i + 1];
      }
      var j := LetterRunEnd(t, i + 1);
      assert t[j] == '-' by {
        if j < h { assert t[..h][j] == t[j]; }
      }
      ScanGroupsComplete(t, j, h, k);
    }
  }

  /** The scan finds a code prefix exactly when the text starts with a
      match of the code pattern whose digit run is not followed by another
      digit, and it returns that prefix's length. */
  lemma ScanCodeCorrect(t: string, k: nat)
    ensures ScanCode(t) == Some(k) <==> k <= |t| && IsCode(t[..k]) && (k == |t| || !IsDigit(t[k]))
  {
    if ScanCode(t) == Some(k) {
      ScanGroupsSound(t, LetterRunEnd(t, 0));
    }
    if k <= |t| && IsCode(t[..k]) && (k == |t| || !IsDigit(t[k])) {
      var h: nat :| IsCodeAt(t[..k], h);
      var s := t[..k];
      assert IsLetter(s[..h][0]);
      var e := LetterRunEnd(t, 0);
      assert t[e] == '-' by {
        if e < h { assert s[..h][e] == t[e]; }
      }
      ScanGroupsComplete(t, e, h, k);
    }
  }

  /** At most one prefix of `t` matches the code pattern and is followed by
      something other than a digit: the pattern can match in one way only. */
  lemma CodePrefixUnique(t: string, k1: nat, k2: nat)
    requires k1 < k2 <= |t|
    requires IsCode(t[..k1]) && IsCode(t[..k2])
    ensures IsDigit(t[k1])
  {
    var h1: nat :| IsCodeAt(t[..k1], h1);
    var h2: nat :| IsCodeAt(t[..k2], h2);
    var s1, s2 := t[..k1], t[..k2];
    assert IsDigit(s1[h1 + 1..][k1 - h1 - 2]);
    assert s2[k1 - 1] == t[k1 - 1];
    assert s2[h2 + 1..][k1 - h2 - 1] == t[k1];
  }

  // ------------------------------------------------- code and name split

  /** The name group when `.*` starts at `j`: the rest of the text, less a
      final line feed, which `$` may match before. */
  function NameGroup(t: string, j: nat): string
    requires j <= |t|
  {
    if j < |t| && t[|t| - 1] == '\n' then t[j..|t| - 1] else t[j..]
  }

  /** What the .NET regex engine finds for `CodeAndNameRegex` on `t`: the
      length of the code group and the text of the name group. `\s+` and
      `.*` are greedy and `$` also matches before a final line feed. */
  function MatchCodeAndName(t: string): Option<(nat, string)> {
    match ScanCode(t)
    case None => None
    case Some(k) =>
      if k < |t| && (IsWhiteSpace(t[k]) || t[k] == '-') then
        var j := SkipWhite(t, k + 1);
        if LineTail(t[j..]) then
          Some((k, NameGroup(t, j)))
        else None
      else None
  }

  /** `LineTail` holds of every suffix of a text it holds of. */
  lemma LineTailSuffix(u: string, d: nat)
    requires d <= |u| && LineTail(u)
    ensures LineTail(u[d..])
  {
    forall i | 0 <= i < |u[d..]| - 1 ensures u[d..][i] != '\n' {
      assert u[d..][i] == u[d + i];
    }
  }

  /** The name group (the text after the blank run, less a final line
      feed) trims to the same text as everything after the separator. */
  lemma NameGroupTrim(t: string, k: nat, j: nat)
    requires k < j <= |t| && IsBlank(t[k + 1..j])
    ensures Trim(NameGroup(t, j)) == Trim(t[k + 1..])
  {
    var g := NameGroup(t, j);
    var tail := if j < |t| && t[|t| - 1] == '\n' then t[|t| - 1..] else [];
    assert t[k + 1..] == t[k + 1..j] + g + tail by {
      assert t[j..] == g + tail;
    }
    TrimPadded(t[k + 1..j], g, tail);
  }

  /** When the engine reports a match, the declared pattern matches with
      the same code, and the trimmed name group is the trimmed text after
      the separator. */
  lemma MatchSound(t: string, k: nat, g: string)
    requires MatchCodeAndName(t) == Some((k, g))
    ensures CodeAndNameMatch(t, k) && Trim(g) == Trim(t[k + 1..])
  {
    var j := SkipWhite(t, k + 1);
    assert ScanCode(t) == Some(k) && g == NameGroup(t, j);
    ScanCodeCorrect(t, k);
    assert IsBlank(t[k + 1..j]);
    NameGroupTrim(t, k, j);
  }

  /** Whenever the declared pattern matches, the engine reports that match. */
  lemma MatchComplete(t: string, k: nat)
    requires CodeAndNameMatch(t, k)
    ensures MatchCodeAndName(t).Some? && MatchCodeAndName(t).value.0 == k
  {
    ScanCodeCorrect(t, k);
    var j := SkipWhite(t, k + 1);
    var j': nat :| k < j' <= |t| && IsBlank(t[k + 1..j']) && LineTail(t[j'..]);
    assert j' <= j;
    LineTailSuffix(t[j'..], j - j');
    assert t[j'..][j - j'..] == t[j..];
  }

  /** A code starts with a letter and ends with a digit, so trimming leaves
      it as it is. */
  lemma CodeIsTrimmed(s: string)
    requires IsCode(s)
    ensures Trim(s) == s
  {
    var h: nat :| IsCodeAt(s, h);
    assert s[..h][0] == s[0];
    assert s[h + 1..][|s| - h - 2] == s[|s| - 1];
    assert [] + s + [] == s;
    TrimUnique([], s, []);
  }

  /** The fallback split: the text before the first space is the code and
      the text after it is the name, as is; without a space after the first
      character the whole text is the code and the name is empty. */
  function SplitAtFirstSpace(raw: string): (r: (string, string))
    ensures forall i :: 0 < i < |raw| && raw[i] == ' ' && ' ' !in raw[..i] ==> r == (raw[..i], raw[i + 1..])
    ensures ' ' !in raw || raw[0] == ' ' ==> r == (raw, [])
  {
    var firstSpace := IndexOfFirst(c => c == ' ', raw);
    if firstSpace.Some? && firstSpace.value > 0 then
      (raw[..firstSpace.value], raw[firstSpace.value + 1..])
    else
      (raw, [])
  }

  /** `ParseCodeAndName`: the trimmed code and name groups when the code
      pattern matches, otherwise the split at the first space. */
  function ParseCodeAndName(raw: string): (string, string) {
    match MatchCodeAndName(raw)
    case Some((k, name)) => (Trim(raw[..k]), Trim(name))
    case None => SplitAtFirstSpace(raw)
  }

  /** On a match, the result holds the trimmed groups. */
  lemma ParseOfMatch(raw: string, k: nat, g: string)
    requires MatchCodeAndName(raw) == Some((k, g))
    ensures k <= |raw| && ParseCodeAndName(raw) == (Trim(raw[..k]), Trim(g))
  {
  }

  /** When the code pattern matches at `k`, the code is the matched prefix
      itself and the name is the trimmed rest after the separator. */
  lemma ParseCodeAndNameMatched(raw: string, k: nat)
    requires CodeAndNameMatch(raw, k)
    ensures ParseCodeAndName(raw) == (raw[..k], Trim(raw[k + 1..]))
  {
    MatchComplete(raw, k);
    var g := MatchCodeAndName(raw).value.1;
    ParseOfMatch(raw, k, g);
    MatchSound(raw, k, g);
    CodeIsTrimmed(raw[..k]);
  }

  /** When the code pattern matches nowhere, the text is split at its first
      space. */
  lemma ParseCodeAndNameFallback(raw: string)
    requires forall k: nat :: !CodeAndNameMatch(raw, k)
    ensures ParseCodeAndName(raw) == SplitAtFirstSpace(raw)
  {
    if MatchCodeAndName(raw).Some? {
      MatchSound(raw, MatchCodeAndName(raw).value.0, MatchCodeAndName(raw).value.1);
    }
  }

  /** Both cases of `ParseCodeAndName` together. */
  lemma ParseCodeAndNameSpec(raw: string)
    ensures forall k: nat :: CodeAndNameMatch(raw, k) ==>
      ParseCodeAndName(raw) == (raw[..k], Trim(raw[k + 1..]))
    ensures (forall k: nat :: !CodeAndNameMatch(raw, k)) ==>
      ParseCodeAndName(raw) == SplitAtFirstSpace(raw)
  {
    forall k: nat | CodeAndNameMatch(raw, k)
      ensures ParseCodeAndName(raw) == (raw[..k], Trim(raw[k + 1..]))
    {
      ParseCodeAndNameMatched(raw, k);
    }
    if forall k: nat :: !CodeAndNameMatch(raw, k) {
      ParseCodeAndNameFallback(raw);
    }
  }

  // ------------------------------------------------------ camera number

  /** The leftmost match of `\d+` in `s` is `s[i..j]`: no digit before `i`,
      digits from `i` up to `j`, no digit at `j`. */
  predicate FirstDigitRun(s: string, i: nat, j: nat) {
    i < j <= |s| &&
    (forall m :: 0 <= m < i ==> !IsDigit(s[m])) &&
    (forall m :: i <= m < j ==> IsDigit(s[m])) &&
    (j == |s| || !IsDigit(s[j]))
  }

  /** The leftmost digit run is unique. */
  lemma FirstDigitRunUnique(s: string, i0: nat, j0: nat)
    requires FirstDigitRun(s, i0, j0)
    ensures AllDigits(s[i0..j0])
    ensures forall i: nat, j: nat :: FirstDigitRun(s, i, j) ==> i == i0 && j == j0
  {
    assert forall m :: 0 <= m < j0 - i0 ==> s[i0..j0][m] == s[i0 + m];
    forall i: nat, j: nat | FirstDigitRun(s, i, j) ensures i == i0 && j == j0 {
      assert IsDigit(s[i]) && IsDigit(s[i0]);
      assert !(j < j0) && !(j0 < j);
    }
  }

  /** `int.TryParse` of a run of decimal digits: its value when that fits in
      an `int`, otherwise failure, which the parser turns into 0. */
  function ParseDigitsOrZero(ds: string): (r: Int32)
    requires AllDigits(ds)
    ensures r >= 0
  {
    var v := DecimalValue(ds);
    if v <= Int32Max then v else 0
  }

  /** `ExtractCameraNumber`: the value of the first run of digits in the
      code; 0 when the code has no digit or that value does not fit in an
      `int`. */
  function ExtractCameraNumber(code: string): Int32 {
    match IndexOfFirst(IsDigit, code)
    case None => 0
    case Some(i) =>
      var j := DigitRunEnd(code, i);
      assert forall m :: 0 <= m < j - i ==> code[i..j][m] == code[i + m];
      ParseDigitsOrZero(code[i..j])
  }

  /** The number is never negative; it is 0 when the code has no digit, and
      otherwise it is the value of the leftmost digit run (0 when that does
      not fit in an `int`). */
  lemma ExtractCameraNumberSpec(code: string)
    ensures ExtractCameraNumber(code) >= 0
    ensures (forall m :: 0 <= m < |code| ==> !IsDigit(code[m])) ==> ExtractCameraNumber(code) == 0
    ensures forall i: nat, j: nat :: FirstDigitRun(code, i, j) ==>
      AllDigits(code[i..j]) && ExtractCameraNumber(code) == ParseDigitsOrZero(code[i..j])
  {
    match IndexOfFirst(IsDigit, code)
    case None =>
    case Some(i) =>
      FirstDigitRunUnique(code, i, DigitRunEnd(code, i));
  }

  /** On the pattern path the letter groups hold no digit, so the number is
      the value of the code's trailing digit group. */
  lemma NumberOfCode(s: string, h: nat)
    requires IsCodeAt(s, h)
    ensures ExtractCameraNumber(s) == ParseDigitsOrZero(s[h + 1..])
  {
    forall m | 0 <= m < h + 1 ensures !IsDigit(s[m]) {
      if m < h { assert s[..h][m] == s[m]; }
    }
    forall m | h + 1 <= m < |s| ensures IsDigit(s[m]) {
      assert s[h + 1..][m - h - 1] == s[m];
    }
    assert FirstDigitRun(s, h + 1, |s|);
    ExtractCameraNumberSpec(s);
    assert s[h + 1..|s|] == s[h + 1..];
  }

  // ------------------------------------------------------- rows to cameras

  /** `ParseCameraFromRow`: trim the camera text, split it, extract the
      number and copy the coordinates. The modelled steps never throw, so
      the `catch` arm that returns `null` is never taken. */
  function ParseCameraFromRow(row: CsvRow): (r: Option<Camera>)
    ensures r.Some?
    ensures r.value.latitude == row.latitude && r.value.longitude == row.longitude
  {
    var raw := Trim(row.camera);
    var (code, name) := ParseCodeAndName(raw);
    var number := ExtractCameraNumber(code);
    Some(Camera(number, code, name, row.latitude, row.longitude))
  }

  /** A camera parsed from a non-blank text has a non-empty code: either
      the matched code, or a non-empty prefix of the trimmed text. */
  lemma CameraCodeNotEmpty(row: CsvRow)
    requires !IsBlank(row.camera)
    ensures ParseCameraFromRow(row).value.code != []
  {
    TrimEmpty(row.camera);
    var raw := Trim(row.camera);
    ParseCodeAndNameSpec(raw);
    if k: nat :| CodeAndNameMatch(raw, k) {
      var h: nat :| IsCodeAt(raw[..k], h);
    }
  }

  /** The camera a row parses into. */
  function CameraOf(row: CsvRow): Camera {
    ParseCameraFromRow(row).value
  }

  /** The cameras `Parse` yields for `rows`: the valid rows, in order, each
      turned into its camera. */
  function ParsedCameras(rows: seq<CsvRow>): seq<Camera> {
    Map(CameraOf, Filter(IsValidRow, rows))
  }

  /** `Parse`: filter the rows, then parse each remaining row and keep every
      camera that comes back. */
  method Parse(rows: seq<CsvRow>) returns (cameras: seq<Camera>)
    ensures cameras == ParsedCameras(rows)
  {
    var valid := Filter(IsValidRow, rows);
    cameras := [];
    for i := 0 to |valid|
      invariant cameras == Map(CameraOf, valid[..i])
    {
      var camera := ParseCameraFromRow(valid[i]);
      assert valid[..i + 1][..i] == valid[..i];
      if camera.Some? {
        cameras := cameras + [camera.value];
      }
    }
    assert valid[..|valid|] == valid;
  }

  /** The parsed list follows the rows: the `i`-th camera comes from the
      row at `idx[i]`, positions increase, a row contributes exactly when it
      is valid, and every camera has a non-empty code. */
  lemma ParsedCamerasFromRows(rows: seq<CsvRow>) returns (idx: seq<nat>)
    ensures |idx| == |ParsedCameras(rows)|
    ensures IncreasingPositions(idx, |rows|)
    ensures forall i :: 0 <= i < |idx| ==>
      IsValidRow(rows[idx[i]]) && ParseCameraFromRow(rows[idx[i]]) == Some(ParsedCameras(rows)[i])
    ensures forall j :: 0 <= j < |rows| ==> (IsValidRow(rows[j]) <==> j in idx)
    ensures forall i :: 0 <= i < |idx| ==> ParsedCameras(rows)[i].code != []
  {
    idx := FilterIndices(IsValidRow, rows);
    MapAt(CameraOf, Filter(IsValidRow, rows));
    forall i | 0 <= i < |idx| ensures ParsedCameras(rows)[i].code != [] {
      CameraCodeNotEmpty(rows[idx[i]]);
    }
  }

  /** Rows that are all blank or `ERROR` rows give no cameras. */
  lemma NoValidRowsNoCameras(rows: seq<CsvRow>)
    requires forall j :: 0 <= j < |rows| ==> !IsValidRow(rows[j])
    ensures ParsedCameras(rows) == []
  {
    FilterDropsAll(IsValidRow, rows);
  }

  /** A row built with no initialiser has empty camera text, so it is
      dropped and yields no camera. */
  lemma DefaultRowDropped(rows: seq<CsvRow>)
    requires rows == [DefaultCsvRow]
    ensures !IsValidRow(DefaultCsvRow)
    ensures ParsedCameras(rows) == []
  {
    NoValidRowsNoCameras(rows);
  }

  // --------------------------------------------------------------- examples

  /** A code followed by a separator and a single line matches, the name
      starting right after the separator. */
  lemma MatchAfterSeparator(t: string, k: nat)
    requires k < |t| && IsCode(t[..k]) && (IsWhiteSpace(t[k]) || t[k] == '-')
    requires LineTail(t[k + 1..])
    ensures CodeAndNameMatch(t, k)
  {
    assert IsBlank(t[k + 1..k + 1]);
  }

  /** `UTR-CM-552` is a code whose digit group starts after position 6. */
  lemma ExampleCode(code: string)
    requires code == "UTR-CM-552"
    ensures IsCodeAt(code, 6)
  {
    assert code[..6] == "UTR-CM" && code[7..] == "552";
  }

  /** The number of the code `UTR-CM-552` is 552. */
  lemma ExampleNumber(code: string)
    requires code == "UTR-CM-552"
    ensures ExtractCameraNumber(code) == 552
  {
    ExampleCode(code);
    NumberOfCode(code, 6);
    assert code[7..] == "552";
    assert "552"[..2] == "55" && "55"[..1] == "5" && "5"[..0] == "";
  }

  /** `UTR-CM-552 Neude rijbaan` splits into its code and its name. */
  lemma ExampleSplit(raw: string)
    requires raw == "UTR-CM-552 Neude rijbaan"
    ensures ParseCodeAndName(raw) == ("UTR-CM-552", "Neude rijbaan")
  {
    assert raw[..10] == "UTR-CM-552" && raw[11..] == "Neude rijbaan";
    ExampleCode(raw[..10]);
    assert LineTail(raw[11..]);
    MatchAfterSeparator(raw, 10);
    ParseCodeAndNameMatched(raw, 10);
    TrimKeeps(raw[11..]);
  }

  /** A row in the usual shape: code, space, name. */
  lemma ExampleCodeAndName(row: CsvRow)
    requires row == CsvRow("UTR-CM-552 Neude rijbaan", "52.093", "5.118")
    ensures ParseCameraFromRow(row) == Some(Camera(552, "UTR-CM-552", "Neude rijbaan", "52.093", "5.118"))
  {
    TrimKeeps(row.camera);
    ExampleSplit(row.camera);
    ExampleNumber("UTR-CM-552");
  }

  /** A text without digits holds no code, so the pattern matches nowhere. */
  lemma NoDigitNoMatch(t: string)
    requires forall i :: 0 <= i < |t| ==> !IsDigit(t[i])
    ensures forall k: nat :: !CodeAndNameMatch(t, k)
  {
    forall k: nat, h: nat | k <= |t| ensures !IsCodeAt(t[..k], h) {
      if h + 1 < k {
        assert t[..k][h + 1..][0] == t[h + 1];
      }
    }
  }

  /** A hyphen separator: `AB-12-x` gives code `AB-12` and name `x`. */
  lemma ExampleHyphen(raw: string)
    requires raw == "AB-12-x"
    ensures ParseCodeAndName(raw) == ("AB-12", "x")
  {
    assert raw[..5] == "AB-12" && raw[6..] == "x";
    assert raw[..5][..2] == "AB" && raw[..5][3..] == "12";
    assert IsCodeAt(raw[..5], 2);
    assert LineTail(raw[6..]);
    MatchAfterSeparator(raw, 5);
    ParseCodeAndNameMatched(raw, 5);
    TrimKeeps(raw[6..]);
  }

  /** The fallback keeps the name as it is: `ABC  def` gives code `ABC` and
      name ` def`. */
  lemma ExampleFallback(raw: string)
    requires raw == "ABC  def"
    ensures ParseCodeAndName(raw) == ("ABC", " def")
  {
    NoDigitNoMatch(raw);
    ParseCodeAndNameFallback(raw);
    assert raw[3] == ' ' && ' ' !in raw[..3];
    assert raw[..3] == "ABC" && raw[4..] == " def";
  }

  /** The `ERROR` test looks at the untrimmed text: `  ERROR x` is kept and
      gives code `ERROR`, name `x` and number 0. */
  lemma ExampleIndentedError(row: CsvRow)
    requires row == CsvRow("  ERROR x", "", "")
    ensures IsValidRow(row)
    ensures ParseCameraFromRow(row) == Some(Camera(0, "ERROR", "x", "", ""))
  {
    var raw := row.camera;
    assert !IsWhiteSpace(raw[2]);
    assert ToUpper(raw[0]) != ToUpper("ERROR"[0]);
    assert raw == "  " + "ERROR x" + [];
    TrimUnique("  ", "ERROR x", []);
    ExampleErrorSplit("ERROR x");
    ExtractCameraNumberSpec("ERROR");
  }

  /** `ERROR x` has no digit, so it is split at its space. */
  lemma ExampleErrorSplit(raw: string)
    requires raw == "ERROR x"
    ensures ParseCodeAndName(raw) == ("ERROR", "x")
  {
    NoDigitNoMatch(raw);
    ParseCodeAndNameFallback(raw);
    assert raw[5] == ' ' && ' ' !in raw[..5];
    assert raw[..5] == "ERROR" && raw[6..] == "x";
  }

  /** A row whose camera text starts with `ERROR`, in any letter case, is
      invalid, and adding it to the rows adds no camera. */
  lemma ErrorRowDropped(rows: seq<CsvRow>, row: CsvRow)
    requires StartsWithIgnoreCase(row.camera, "ERROR")
    ensures !IsValidRow(row)
    ensures ParsedCameras(rows + [row]) == ParsedCameras(rows)
  {
    FilterAppend(IsValidRow, rows, [row]);
    assert [row][1..] == [];
    assert Filter(IsValidRow, [row]) == [];
    assert Filter(IsValidRow, rows) + [] == Filter(IsValidRow, rows);
  }

  /** `error: offline` starts with `ERROR` when case is ignored. */
  lemma ExampleErrorRow(row: CsvRow)
    requires row.camera == "error: offline"
    ensures !IsValidRow(row)
  {
    assert row.camera[..5] == "error";
  }
}
