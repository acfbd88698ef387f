/**
 * The ANSI parser of src/utils/ansiParser.js.
 *
 * Both functions scan for control sequences of the form `ESC [ params letter`.
 * That is the control-sequence syntax of ECMA-48 section 5.4, narrowed to
 * parameters made of digits and `;` and to a final byte that is an ASCII
 * letter. They scan left to right without overlap, as a global regular
 * expression does. `stripANSI` deletes every such sequence. `parseANSI` cuts
 * the text between sequences into segments. Each segment carries the style in
 * force when it starts. Only SGR sequences (final byte `m`, ECMA-48 section
 * 8.3.117) change that style.
 */
module Ansi {
  import opened Common

  const Esc: char := 27 as char

  /**
   * The code's `currentStyle` object. It only ever holds these five
   * properties; a property is present when it is `Some`, and deleting it
   * makes it `None`.
   */
  datatype Style = Style(
    fontWeight: Option<string>,
    fontStyle: Option<string>,
    textDecoration: Option<string>,
    color: Option<string>,
    backgroundColor: Option<string>)

  /** `{}` */
  const NoStyle := Style(None, None, None, None, None)

  /** `{ text, style }` */
  datatype Segment = Segment(text: string, style: Style)

  /** `ANSI_COLORS` */
  const AnsiColors: map<int, string> := map[
    30 := "#000000", 31 := "#ff0000", 32 := "#00ff00", 33 := "#ffff00",
    34 := "#0000ff", 35 := "#ff00ff", 36 := "#00ffff", 37 := "#ffffff",
    90 := "#808080", 91 := "#ff6b6b", 92 := "#51cf66", 93 := "#ffd93d",
    94 := "#74c0fc", 95 := "#ff8ed4", 96 := "#35d9d2", 97 := "#ffffff"]

  /** `ANSI_BG_COLORS` */
  const AnsiBgColors: map<int, string> := map[
    40 := "#000000", 41 := "#ff0000", 42 := "#00ff00", 43 := "#ffff00",
    44 := "#0000ff", 45 := "#ff00ff", 46 := "#00ffff", 47 := "#ffffff",
    100 := "#808080", 101 := "#ff6b6b", 102 := "#51cf66", 103 := "#ffd93d",
    104 := "#74c0fc", 105 := "#ff8ed4", 106 := "#35d9d2", 107 := "#ffffff"]

  // ---------------------------------------------------------------------------
  // Recognising control sequences

  predicate IsParamChar(c: char) { '0' <= c <= '9' || c == ';' }

  predicate IsLetter(c: char) { 'a' <= c <= 'z' || 'A' <= c <= 'Z' }

  /** The end of the run of parameter characters that starts at `j`. */
  function ParamEnd(s: string, j: nat): (k: nat)
    requires j <= |s|
    ensures j <= k <= |s|
    ensures k < |s| ==> !IsParamChar(s[k])
    decreases |s| - j
  {
    if j < |s| && IsParamChar(s[j]) then ParamEnd(s, j + 1) else j
  }

  /** Everything from `j` up to `ParamEnd(s, j)` is a parameter character. */
  lemma {:induction false} ParamRun(s: string, j: nat)
    requires j <= |s|
    ensures forall m :: j <= m < ParamEnd(s, j) ==> IsParamChar(s[m])
    decreases |s| - j
  {
    if j < |s| && IsParamChar(s[j]) {
      ParamRun(s, j + 1);
    }
  }

  /** A run of parameter characters from `j` to `k` ends at `ParamEnd(s, j)` when `s[k]` is not one. */
  lemma {:induction false} ParamRunEnd(s: string, j: nat, k: nat)
    requires j <= k < |s| && !IsParamChar(s[k])
    requires forall m :: j <= m < k ==> IsParamChar(s[m])
    ensures ParamEnd(s, j) == k
    decreases k - j
  {
    if j < k {
      ParamRunEnd(s, j + 1, k);
    }
  }

  /**
   * The length of the control sequence that starts at `i`, or 0 if none does.
   * The lazy `[0-9;]*?` followed by a letter can only stop where the parameter
   * run ends, since no parameter character is a letter.
   */
  function MatchLen(s: string, i: nat): (n: nat)
    requires i <= |s|
    ensures n == 0 || (3 <= n && i + n <= |s|)
    ensures n > 0 ==> s[i] == Esc && s[i + 1] == '[' && IsLetter(s[i + n - 1])
  {
    if i + 1 < |s| && s[i] == Esc && s[i + 1] == '[' then
      var k := ParamEnd(s, i + 2);
      if k < |s| && IsLetter(s[k]) then k + 1 - i else 0
    else 0
  }

  /**
   * `MatchLen` is exactly the regular expression anchored at `i`: a match of
   * length `n` is `ESC [`, then parameter characters, then a letter; and
   * every such text is matched whole.
   */
  lemma MatchLenMeaning(s: string, i: nat, k: nat)
    requires i + 2 <= k < |s|
    ensures MatchLen(s, i) == k + 1 - i
            <==> (s[i] == Esc && s[i + 1] == '[' && IsLetter(s[k])
                  && forall m :: i + 2 <= m < k ==> IsParamChar(s[m]))
  {
    if s[i] == Esc && s[i + 1] == '[' {
      ParamRun(s, i + 2);
      if IsLetter(s[k]) && forall m :: i + 2 <= m < k ==> IsParamChar(s[m]) {
        ParamRunEnd(s, i + 2, k);
      }
    }
  }

  /** `ansiRegex.exec` from position `from`: where the leftmost sequence at or after `from` starts. */
  function NextMatch(s: string, from: nat): (r: Option<nat>)
    requires from <= |s|
    ensures r.Some? ==> from <= r.value < |s| && MatchLen(s, r.value) > 0
    decreases |s| - from
  {
    if from == |s| then None
    else if MatchLen(s, from) > 0 then Some(from)
    else NextMatch(s, from + 1)
  }

  /**
   * The match found is the leftmost one: no sequence starts between `from`
   * and it, and when there is none, no sequence starts anywhere after `from`.
   */
  lemma {:induction false} NextMatchLeftmost(s: string, from: nat)
    requires from <= |s|
    ensures NextMatch(s, from).Some? ==> forall j :: from <= j < NextMatch(s, from).value ==> MatchLen(s, j) == 0
    ensures NextMatch(s, from).None? ==> forall j :: from <= j < |s| ==> MatchLen(s, j) == 0
    decreases |s| - from
  {
    if from < |s| && MatchLen(s, from) == 0 {
      NextMatchLeftmost(s, from + 1);
    }
  }

  /** One match of the regular expression: the sequence occupies `s[start..end]`. */
  datatype Hit = Hit(start: nat, end: nat)

  /**
   * The hits lie in order, at or after `from`, without overlap, each at least
   * three characters long (`ESC`, `[` and the final letter) and inside `s`.
   */
  predicate Ordered(s: string, from: nat, hits: seq<Hit>)
    decreases |hits|
  {
    && from <= |s|
    && (|hits| > 0 ==>
          && from <= hits[0].start
          && hits[0].start + 3 <= hits[0].end <= |s|
          && Ordered(s, hits[0].end, hits[1..]))
  }

  /**
   * The successive results of `ansiRegex.exec` on a global regular expression
   * whose `lastIndex` starts at `from`: each search resumes where the previous
   * match ended.
   */
  function Scan(s: string, from: nat): (r: seq<Hit>)
    requires from <= |s|
    ensures Ordered(s, from, r)
    decreases |s| - from
  {
    match NextMatch(s, from)
    case None => []
    case Some(i) => [Hit(i, i + MatchLen(s, i))] + Scan(s, i + MatchLen(s, i))
  }

  /** Every hit of the scan is a whole match of the regular expression. */
  lemma {:induction false} ScanMatches(s: string, from: nat)
    requires from <= |s|
    ensures forall k :: 0 <= k < |Scan(s, from)| ==>
              Scan(s, from)[k].start < |s| && MatchLen(s, Scan(s, from)[k].start) == Scan(s, from)[k].end - Scan(s, from)[k].start
    decreases |s| - from
  {
    match NextMatch(s, from)
    case None =>
    case Some(i) =>
      var next := i + MatchLen(s, i);
      ScanMatches(s, next);
      ScanStep(s, from, i);
      var hits, rest := Scan(s, from), Scan(s, next);
      forall k | 0 < k < |hits|
        ensures hits[k] == rest[k - 1]
      {
        assert hits[1..][k - 1] == hits[k];
      }
  }

  /**
   * The scan misses no sequence: before the first hit (or anywhere, when
   * there is none) no sequence starts; between later hits the same holds by
   * `ScanStep`.
   */
  lemma ScanMissesNothing(s: string, from: nat)
    requires from <= |s|
    ensures |Scan(s, from)| == 0 ==> forall j :: from <= j < |s| ==> MatchLen(s, j) == 0
    ensures |Scan(s, from)| > 0 ==> forall j :: from <= j < Scan(s, from)[0].start ==> MatchLen(s, j) == 0
  {
    NextMatchLeftmost(s, from);
    match NextMatch(s, from)
    case None =>
    case Some(i) =>
      ScanStep(s, from, i);
  }

  /** No sequence starts where there is no ESC: the search skips such a stretch. */
  lemma {:induction false} NextMatchSkip(s: string, from: nat, k: nat)
    requires from <= k <= |s|
    requires forall j :: from <= j < k ==> s[j] != Esc
    ensures NextMatch(s, from) == NextMatch(s, k)
    decreases k - from
  {
    if from < k {
      NextMatchSkip(s, from + 1, k);
    }
  }

  /** One step of the scan: the leftmost match, then the scan from its end. */
  lemma ScanStep(s: string, from: nat, i: nat)
    requires from <= |s| && NextMatch(s, from) == Some(i)
    ensures |Scan(s, from)| > 0
    ensures Scan(s, from)[0] == Hit(i, i + MatchLen(s, i))
    ensures Scan(s, from)[1..] == Scan(s, i + MatchLen(s, i))
  {
  }

  /** `match[1]`: the parameter text of the sequence `h`. */
  function Params(s: string, h: Hit): (r: string)
    requires h.start + 3 <= h.end <= |s|
    ensures |r| == h.end - h.start - 3
  {
    s[h.start + 2..h.end - 1]
  }

  /** `match[2]`: the final letter of the sequence `h`. */
  function Command(s: string, h: Hit): char
    requires h.start + 3 <= h.end <= |s|
  {
    s[h.end - 1]
  }

  // ---------------------------------------------------------------------------
  // stripANSI

  /** The text from `from` on with the sequences `hits` cut out. */
  function Cut(s: string, from: nat, hits: seq<Hit>): (r: string)
    requires Ordered(s, from, hits)
    ensures |r| <= |s| - from
    decreases |hits|
  {
    if |hits| == 0 then s[from..]
    else s[from..hits[0].start] + Cut(s, hits[0].end, hits[1..])
  }

  /** `String(text).replace(/\u001b\[[0-9;]*[a-zA-Z]/g, '')` */
  function Strip(s: string): (r: string)
    ensures |r| <= |s|
  {
    Cut(s, 0, Scan(s, 0))
  }

  /** Text without an escape character holds no sequence and comes back unchanged. */
  lemma StripWithoutEsc(s: string)
    requires Esc !in s
    ensures Scan(s, 0) == [] && Strip(s) == s
  {
  }

  /**
   * Stripping is not idempotent: removing the sequence inside
   * `ESC ESC[31m [31m` splices the first ESC onto the trailing `[31m`,
   * which a second pass removes.
   */
  lemma StripNotIdempotent()
    ensures var s := [Esc, Esc, '[', '3', '1', 'm', '[', '3', '1', 'm'];
            Strip(s) == [Esc, '[', '3', '1', 'm'] && Strip(Strip(s)) == ""
  {
    var s := [Esc, Esc, '[', '3', '1', 'm', '[', '3', '1', 'm'];
    assert MatchLen(s, 0) == 0;
    assert ParamEnd(s, 5) == 5;
    assert ParamEnd(s, 4) == 5;
    assert ParamEnd(s, 3) == 5;
    assert MatchLen(s, 1) == 5;
    assert NextMatch(s, 0) == Some(1);
    assert ParamEnd(s, 9) == 9;
    assert ParamEnd(s, 8) == 9;
    assert MatchLen(s, 6) == 0 && MatchLen(s, 7) == 0 && MatchLen(s, 8) == 0 && MatchLen(s, 9) == 0;
    assert NextMatch(s, 6) == None;
    assert Scan(s, 6) == [];
    assert Scan(s, 0) == [Hit(1, 6)];
    var t := [Esc, '[', '3', '1', 'm'];
    assert Cut(s, 6, []) == s[6..];
    assert s[0..1] + s[6..] == t;
    assert ParamEnd(t, 4) == 4;
    assert ParamEnd(t, 3) == 4;
    assert ParamEnd(t, 2) == 4;
    assert MatchLen(t, 0) == 5;
    assert NextMatch(t, 0) == Some(0);
    assert NextMatch(t, 5) == None;
    assert Scan(t, 0) == [Hit(0, 5)];
  }

  // ---------------------------------------------------------------------------
  // SGR

  /** The decimal value of a run of digits; `Number("")` is 0. */
  function DecimalValue(digits: string): nat
  {
    if |digits| == 0 then 0
    else
      var c := digits[|digits| - 1];
      DecimalValue(digits[..|digits| - 1]) * 10 + (if '0' <= c <= '9' then c as int - '0' as int else 0)
  }

  function Numbers(fields: seq<string>): (r: seq<nat>)
    ensures |r| == |fields|
  {
    seq(|fields|, i requires 0 <= i < |fields| => DecimalValue(fields[i]))
  }

  /** `match[1] ? match[1].split(';').map(Number) : [0]` */
  function Codes(params: string): (r: seq<nat>)
    ensures |r| >= 1
  {
    if params == "" then [0] else Numbers(Split(params, ';'))
  }

  /** One SGR parameter applied to the current style. */
  function SgrCode(style: Style, code: nat): Style
  {
    if code == 0 then NoStyle
    else if code == 1 then style.(fontWeight := Some("bold"))
    else if code == 3 then style.(fontStyle := Some("italic"))
    else if code == 4 then style.(textDecoration := Some("underline"))
    else if code == 22 then style.(fontWeight := None)
    else if code == 23 then style.(fontStyle := None)
    else if code == 24 then style.(textDecoration := None)
    else if code in AnsiColors then style.(color := Some(AnsiColors[code]))
    else if code in AnsiBgColors then style.(backgroundColor := Some(AnsiBgColors[code]))
    else style
  }

  /**
   * The SGR table by ranges: 30-37 and 90-97 set the foreground colour,
   * 40-47 and 100-107 the background colour, each leaving the rest of the
   * style alone; any code outside the attribute, colour and reset codes
   * changes nothing.
   */
  lemma SgrRanges(style: Style, code: nat)
    ensures (30 <= code <= 37 || 90 <= code <= 97) ==>
              SgrCode(style, code) == style.(color := Some(AnsiColors[code]))
    ensures (40 <= code <= 47 || 100 <= code <= 107) ==>
              SgrCode(style, code) == style.(backgroundColor := Some(AnsiBgColors[code]))
    ensures (code !in {0, 1, 3, 4, 22, 23, 24} && !(30 <= code <= 37 || 90 <= code <= 97)
             && !(40 <= code <= 47 || 100 <= code <= 107)) ==> SgrCode(style, code) == style
  {
    assert code in AnsiColors <==> (30 <= code <= 37 || 90 <= code <= 97);
    assert code in AnsiBgColors <==> (40 <= code <= 47 || 100 <= code <= 107);
  }

  /** The parameters of one SGR sequence, applied left to right. */
  function ApplyCodes(style: Style, codes: seq<nat>): Style
    decreases |codes|
  {
    if |codes| == 0 then style else ApplyCodes(SgrCode(style, codes[0]), codes[1..])
  }

  /** The effect of one control sequence: only `m` touches the style. */
  function ApplyCommand(style: Style, params: string, command: char): (r: Style)
    ensures command != 'm' ==> r == style
  {
    if command == 'm' then ApplyCodes(style, Codes(params)) else style
  }

  /** `codes.forEach(code => { ... })` */
  method ApplySgr(style: Style, codes: seq<nat>) returns (currentStyle: Style)
    ensures currentStyle == ApplyCodes(style, codes)
  {
    currentStyle := style;
    for i := 0 to |codes|
      invariant ApplyCodes(currentStyle, codes[i..]) == ApplyCodes(style, codes)
    {
      assert codes[i..][1..] == codes[i + 1..];
      currentStyle := SgrCode(currentStyle, codes[i]);
    }
  }

  /** A reset anywhere in a parameter list forgets everything set before it. */
  lemma {:induction false} ResetForgets(style: Style, before: seq<nat>, after: seq<nat>)
    ensures ApplyCodes(style, before + [0] + after) == ApplyCodes(NoStyle, after)
    decreases |before|
  {
    if |before| == 0 {
      assert (before + [0] + after)[1..] == after;
    } else {
      assert (before + [0] + after)[1..] == before[1..] + [0] + after;
      ResetForgets(SgrCode(style, before[0]), before[1..], after);
    }
  }

  /** An empty field counts as 0: `ESC[1;m` sets bold and then resets, ending with no style. */
  lemma TrailingEmptyFieldResets(style: Style)
    ensures ApplyCommand(style, "1;", 'm') == NoStyle
  {
    assert Split("1;", ';') == ["1", ""] by {
      assert Split("", ';') == [""];
      assert [';'][1..] == "";
      assert Split([';'], ';') == ["", ""];
      assert "1;"[1..] == [';'];
      assert ['1'] + "" == "1";
    }
    assert DecimalValue("1") == 1 by { assert "1"[..0] == ""; }
    assert Codes("1;") == [1, 0];
    assert [1, 0] == [1] + [0] + [];
    ResetForgets(style, [1], []);
  }

  /** The styles the parser can produce: only the five properties, with their table values. */
  predicate WellFormedStyle(st: Style)
  {
    && st.fontWeight in {None, Some("bold")}
    && st.fontStyle in {None, Some("italic")}
    && st.textDecoration in {None, Some("underline")}
    && (st.color.Some? ==> st.color.value in AnsiColors.Values)
    && (st.backgroundColor.Some? ==> st.backgroundColor.value in AnsiBgColors.Values)
  }

  lemma {:induction false} ApplyCodesWellFormed(style: Style, codes: seq<nat>)
    requires WellFormedStyle(style)
    ensures WellFormedStyle(ApplyCodes(style, codes))
    decreases |codes|
  {
    if |codes| > 0 {
      var code := codes[0];
      var next := SgrCode(style, code);
      if code in AnsiColors && !(code in {0, 1, 3, 4, 22, 23, 24}) {
        assert AnsiColors[code] in AnsiColors.Values;
      }
      if code in AnsiBgColors && !(code in {0, 1, 3, 4, 22, 23, 24}) && code !in AnsiColors {
        assert AnsiBgColors[code] in AnsiBgColors.Values;
      }
      assert WellFormedStyle(next);
      ApplyCodesWellFormed(next, codes[1..]);
    }
  }

  // ---------------------------------------------------------------------------
  // parseANSI

  /** The text before the next sequence (or the rest of the text), as a segment in `style`, if non-empty. */
  function Gap(s: string, from: nat, hits: seq<Hit>, style: Style): (r: seq<Segment>)
    requires Ordered(s, from, hits)
    ensures |r| <= 1
  {
    if |hits| == 0 then (if from < |s| then [Segment(s[from..], style)] else [])
    else if from < hits[0].start then [Segment(s[from..hits[0].start], style)]
    else []
  }

  /**
   * Reference definition of the segments from `from` on: the non-empty text
   * before each sequence of `hits` becomes a segment in the style then in
   * force, each sequence updates that style, and the non-empty rest of the
   * text becomes the last segment.
   */
  function Render(s: string, from: nat, hits: seq<Hit>, style: Style): seq<Segment>
    requires Ordered(s, from, hits)
    decreases |hits|
  {
    if |hits| == 0 then Gap(s, from, hits, style)
    else Gap(s, from, hits, style)
         + Render(s, hits[0].end, hits[1..], ApplyCommand(style, Params(s, hits[0]), Command(s, hits[0])))
  }

  /** `parseANSI` as a function: the styled segments, or the whole text unstyled when there are none. */
  function Parse(text: string): seq<Segment>
  {
    var segs := Render(text, 0, Scan(text, 0), NoStyle);
    if |segs| > 0 then segs else [Segment(text, NoStyle)]
  }

  /** The texts of the segments, in order. */
  function Texts(segs: seq<Segment>): (r: seq<string>)
    ensures |r| == |segs|
  {
    seq(|segs|, i requires 0 <= i < |segs| => segs[i].text)
  }

  lemma TextsAppend(a: seq<Segment>, b: seq<Segment>)
    ensures Texts(a + b) == Texts(a) + Texts(b)
  {
    assert forall i :: 0 <= i < |a + b| ==> Texts(a + b)[i] == (Texts(a) + Texts(b))[i];
  }

  lemma ConcatSingle(x: string)
    ensures Concat([x]) == x
  {
    assert Concat([x]) == Concat([x][..0]) + x;
  }

  /** A gap holds the text before the next sequence, non-empty. */
  lemma GapText(s: string, from: nat, hits: seq<Hit>, style: Style)
    requires Ordered(s, from, hits)
    ensures Concat(Texts(Gap(s, from, hits, style))) == (if |hits| == 0 then s[from..] else s[from..hits[0].start])
    ensures forall k :: 0 <= k < |Gap(s, from, hits, style)| ==> Gap(s, from, hits, style)[k].text != ""
  {
    var g := Gap(s, from, hits, style);
    if |g| == 1 {
      assert Texts(g) == [g[0].text];
      ConcatSingle(g[0].text);
    } else {
      assert Texts(g) == [];
    }
  }

  /**
   * The segment texts concatenate to the text with the sequences cut out,
   * none is empty, and there is at most one more segment than there are
   * sequences.
   */
  lemma {:induction false} RenderText(s: string, from: nat, hits: seq<Hit>, style: Style)
    requires Ordered(s, from, hits)
    ensures Concat(Texts(Render(s, from, hits, style))) == Cut(s, from, hits)
    ensures forall k :: 0 <= k < |Render(s, from, hits, style)| ==> Render(s, from, hits, style)[k].text != ""
    ensures |Render(s, from, hits, style)| <= |hits| + 1
    decreases |hits|
  {
    GapText(s, from, hits, style);
    if |hits| > 0 {
      var gap := Gap(s, from, hits, style);
      var next := ApplyCommand(style, Params(s, hits[0]), Command(s, hits[0]));
      var rest := Render(s, hits[0].end, hits[1..], next);
      RenderText(s, hits[0].end, hits[1..], next);
      TextsAppend(gap, rest);
      ConcatAppend(Texts(gap), Texts(rest));
      forall k | 0 <= k < |gap + rest|
        ensures (gap + rest)[k].text != ""
      {
        if k >= |gap| {
          assert (gap + rest)[k] == rest[k - |gap|];
        }
      }
    }
  }

  /** Starting from a well-formed style, every segment carries a well-formed style. */
  lemma {:induction false} RenderWellFormed(s: string, from: nat, hits: seq<Hit>, style: Style)
    requires Ordered(s, from, hits) && WellFormedStyle(style)
    ensures forall k :: 0 <= k < |Render(s, from, hits, style)| ==> WellFormedStyle(Render(s, from, hits, style)[k].style)
    decreases |hits|
  {
    if |hits| > 0 {
      var p := Params(s, hits[0]);
      var c := Command(s, hits[0]);
      if c == 'm' {
        ApplyCodesWellFormed(style, Codes(p));
      }
      var gap: seq<Segment> := Gap(s, from, hits, style);
      var rest: seq<Segment> := Render(s, hits[0].end, hits[1..], ApplyCommand(style, p, c));
      RenderWellFormed(s, hits[0].end, hits[1..], ApplyCommand(style, p, c));
      forall k | 0 <= k < |gap + rest|
        ensures WellFormedStyle((gap + rest)[k].style)
      {
        if k >= |gap| {
          assert (gap + rest)[k] == rest[k - |gap|];
        }
      }
    }
  }

  /**
   * `parseANSI` and `stripANSI` correspond: whenever stripping leaves some
   * text, the segment texts concatenate to exactly that text, each is
   * non-empty, and there is at most one more segment than there are
   * sequences; when stripping leaves nothing, the result is the single
   * unstyled segment holding the original text. Every style is well formed.
   */
  lemma ParseAgreesWithStrip(text: string)
    ensures Strip(text) != "" ==>
              && Concat(Texts(Parse(text))) == Strip(text)
              && (forall k :: 0 <= k < |Parse(text)| ==> Parse(text)[k].text != "")
              && |Parse(text)| <= |Scan(text, 0)| + 1
    ensures Strip(text) == "" ==> Parse(text) == [Segment(text, NoStyle)]
    ensures forall k :: 0 <= k < |Parse(text)| ==> WellFormedStyle(Parse(text)[k].style)
  {
    var segs := Render(text, 0, Scan(text, 0), NoStyle);
    RenderText(text, 0, Scan(text, 0), NoStyle);
    RenderWellFormed(text, 0, Scan(text, 0), NoStyle);
    var texts := Texts(segs);
    if |segs| > 0 {
      assert texts[|texts| - 1] != "";
      assert Concat(texts) == Concat(texts[..|texts| - 1]) + texts[|texts| - 1];
    } else {
      assert Concat(texts) == [];
    }
  }

  /** The body of the loop of `parseANSI` for the sequence `h`: only `m` applies its codes. */
  method StyleAfterMatch(text: string, h: Hit, currentStyle: Style) returns (style: Style)
    requires h.start + 3 <= h.end <= |text|
    ensures style == ApplyCommand(currentStyle, Params(text, h), Command(text, h))
  {
    var params := text[h.start + 2..h.end - 1];
    var command := text[h.end - 1];
    style := currentStyle;
    if command == 'm' {
      style := ApplySgr(currentStyle, Codes(params));
    }
  }

  /**
   * The body of one round of the loop of `parseANSI` for the first of the
   * remaining matches, `h`: push the text between `lastIndex` and the match
   * (if any) with the running style, then apply the match to the style.
   * Nothing is lost: the segments pushed so far plus what the remaining
   * matches render to are unchanged.
   */
  method PushAndApply(text: string, lastIndex: nat, h: Hit, currentStyle: Style, segments: seq<Segment>,
                      ghost hits: seq<Hit>)
    returns (segments': seq<Segment>, currentStyle': Style)
    requires |hits| > 0 && hits[0] == h && Ordered(text, lastIndex, hits)
    ensures segments' + Render(text, h.end, hits[1..], currentStyle') == segments + Render(text, lastIndex, hits, currentStyle)
  {
    ghost var gap := Gap(text, lastIndex, hits, currentStyle);
    segments' := segments;
    if h.start > lastIndex {
      segments' := segments + [Segment(text[lastIndex..h.start], currentStyle)];
    }
    assert segments' == segments + gap;
    currentStyle' := StyleAfterMatch(text, h, currentStyle);
    ghost var rest := Render(text, h.end, hits[1..], currentStyle');
    assert Render(text, lastIndex, hits, currentStyle) == gap + rest;
    AppendAssoc(segments, gap, rest);
  }

  /**
   * One round of the loop of `parseANSI`, for the match at `index`: push the
   * text before it, update the style, move `lastIndex` past it. What has been
   * pushed plus what the rest of the text yields stays `whole`.
   */
  method HandleMatch(text: string, lastIndex: nat, index: nat, currentStyle: Style, segments: seq<Segment>,
                     ghost whole: seq<Segment>)
    returns (segments': seq<Segment>, currentStyle': Style, lastIndex': nat)
    requires lastIndex <= |text| && NextMatch(text, lastIndex) == Some(index)
    requires segments + Render(text, lastIndex, Scan(text, lastIndex), currentStyle) == whole
    ensures lastIndex < lastIndex' <= |text|
    ensures segments' + Render(text, lastIndex', Scan(text, lastIndex'), currentStyle') == whole
  {
    lastIndex' := index + MatchLen(text, index);
    ScanStep(text, lastIndex, index);
    segments', currentStyle' := PushAndApply(text, lastIndex, Hit(index, lastIndex'), currentStyle, segments, Scan(text, lastIndex));
  }

  /**
   * `parseANSI`, as the code runs it: a loop over the sequences found by the
   * global regular expression, pushing the text before each one and updating
   * the running style.
   */
  method ParseAnsi(text: string) returns (segments: seq<Segment>)
    ensures segments == Parse(text)
  {
    if text == "" {
      return [Segment(text, NoStyle)];
    }
    segments := [];
    var lastIndex: nat := 0;
    var currentStyle: Style := NoStyle;
    ghost var whole := Render(text, 0, Scan(text, 0), NoStyle);
    var m := NextMatch(text, 0);
    while m.Some?
      invariant lastIndex <= |text|
      invariant m == NextMatch(text, lastIndex)
      invariant segments + Render(text, lastIndex, Scan(text, lastIndex), currentStyle) == whole
      decreases |text| - lastIndex
    {
      segments, currentStyle, lastIndex := HandleMatch(text, lastIndex, m.value, currentStyle, segments, whole);
      m := NextMatch(text, lastIndex);
    }
    assert Scan(text, lastIndex) == [];
    if lastIndex < |text| {
      segments := segments + [Segment(text[lastIndex..], currentStyle)];
    }
    if |segments| == 0 {
      segments := [Segment(text, NoStyle)];
    }
  }

  /** `ESC[31m`: red foreground. */
  const Red: string := [Esc, '[', '3', '1', 'm']

  /** `ESC[0m`: reset. */
  const Reset: string := [Esc, '[', '0', 'm']

  /** The worked example: `hello` in red, a reset, then `world`. */
  function Colored(hello: string, world: string): string
  {
    Red + hello + Reset + world
  }

  /** Where the four parts of the worked example sit. */
  lemma ColoredParts(hello: string, world: string)
    ensures var s := Colored(hello, world); var a := 5 + |hello|;
            |s| == a + 4 + |world| && s[..5] == Red && s[5..a] == hello && s[a..a + 4] == Reset && s[a + 4..] == world
  {
  }

  /** `ESC[31m` opens the worked example: a match of length 5 at 0. */
  lemma ColoredFirstMatch(hello: string, world: string)
    ensures MatchLen(Colored(hello, world), 0) == 5
  {
    var s := Colored(hello, world);
    ColoredParts(hello, world);
    assert s[0] == Red[0] && s[1] == Red[1] && s[2] == Red[2] && s[3] == Red[3] && s[4] == Red[4];
    assert ParamEnd(s, 4) == 4;
    assert ParamEnd(s, 3) == 4;
    assert ParamEnd(s, 2) == 4;
  }

  /** `ESC[0m` right after `hello` is a match of length 4. */
  lemma ColoredSecondMatch(hello: string, world: string)
    ensures MatchLen(Colored(hello, world), 5 + |hello|) == 4
  {
    var s := Colored(hello, world);
    var a := 5 + |hello|;
    ColoredParts(hello, world);
    assert s[a] == Reset[0] && s[a + 1] == Reset[1] && s[a + 2] == Reset[2] && s[a + 3] == Reset[3];
    assert ParamEnd(s, a + 3) == a + 3;
    assert ParamEnd(s, a + 2) == a + 3;
  }

  /** With no ESC in `hello`, the search from 5 lands on the reset. */
  lemma ColoredSkipHello(hello: string, world: string)
    requires Esc !in hello
    ensures NextMatch(Colored(hello, world), 5) == Some(5 + |hello|)
  {
    var s := Colored(hello, world);
    ColoredParts(hello, world);
    ColoredSecondMatch(hello, world);
    forall j | 5 <= j < 5 + |hello|
      ensures s[j] != Esc
    {
      assert s[j] == s[5..5 + |hello|][j - 5];
    }
    NextMatchSkip(s, 5, 5 + |hello|);
  }

  /** With no ESC in `world`, nothing is found after the reset. */
  lemma ColoredSkipWorld(hello: string, world: string)
    requires Esc !in world
    ensures NextMatch(Colored(hello, world), 9 + |hello|) == None
  {
    var s := Colored(hello, world);
    var b := 9 + |hello|;
    ColoredParts(hello, world);
    forall j | b <= j < |s|
      ensures s[j] != Esc
    {
      assert s[j] == s[b..][j - b];
    }
    NextMatchSkip(s, b, |s|);
  }

  /** The scan of the worked example finds `ESC[31m` at 0 and `ESC[0m` right after `hello`. */
  lemma ColoredScan(hello: string, world: string)
    requires Esc !in hello && Esc !in world
    ensures Scan(Colored(hello, world), 0) == [Hit(0, 5), Hit(5 + |hello|, 9 + |hello|)]
  {
    var s := Colored(hello, world);
    ColoredFirstMatch(hello, world);
    ColoredSecondMatch(hello, world);
    ColoredSkipHello(hello, world);
    ColoredSkipWorld(hello, world);
    ScanStep(s, 0, 0);
    ScanStep(s, 5, 5 + |hello|);
    var all := Scan(s, 0);
    assert all[1..] == Scan(s, 5) && |Scan(s, 5)| == 1;
  }

  /** Stripping the worked example leaves `hello` followed by `world`. */
  lemma ColoredStrip(hello: string, world: string)
    requires Esc !in hello && Esc !in world
    ensures Strip(Colored(hello, world)) == hello + world
  {
    var s := Colored(hello, world);
    var a := 5 + |hello|;
    ColoredScan(hello, world);
    ColoredParts(hello, world);
    var hits := [Hit(0, 5), Hit(a, a + 4)];
    assert hits[1..] == [Hit(a, a + 4)] && hits[1..][1..] == [];
    assert Cut(s, a + 4, []) == world;
    assert Cut(s, 5, hits[1..]) == hello + world;
    assert s[0..0] == [];
  }

  /** `31` is the single code 31, which sets the foreground to red. */
  lemma RedCode()
    ensures ApplyCommand(NoStyle, "31", 'm') == NoStyle.(color := Some("#ff0000"))
  {
    assert DecimalValue("31") == 31 by {
      assert "31"[..1] == "3";
      assert "3"[..0] == "";
    }
    SplitNoSep("31", ';');
    assert Codes("31") == [31];
    assert [31][1..] == [];
  }

  /** `0` is the single code 0, which resets the style. */
  lemma ResetCode(style: Style)
    ensures ApplyCommand(style, "0", 'm') == NoStyle
  {
    assert DecimalValue("0") == 0 by { assert "0"[..0] == ""; }
    SplitNoSep("0", ';');
    assert Codes("0") == [0];
    assert [0][1..] == [];
    assert ApplyCodes(style, [0]) == ApplyCodes(NoStyle, []);
  }

  /** From `hello` on, the worked example renders `hello` in red, then `world` after the reset. */
  lemma ColoredRenderRest(hello: string, world: string)
    requires hello != "" && world != ""
    ensures var red := NoStyle.(color := Some("#ff0000")); var a := 5 + |hello|;
            Render(Colored(hello, world), 5, [Hit(a, a + 4)], red) == [Segment(hello, red), Segment(world, NoStyle)]
  {
    var s := Colored(hello, world);
    var red := NoStyle.(color := Some("#ff0000"));
    var a := 5 + |hello|;
    var h := Hit(a, a + 4);
    ColoredParts(hello, world);
    assert Params(s, h) == "0" && Command(s, h) == 'm';
    ResetCode(red);
    assert [h][1..] == [];
    assert Render(s, a + 4, [], NoStyle) == [Segment(world, NoStyle)];
  }

  /**
   * The worked example parses into `hello` in red, then `world` unstyled: the
   * code 31 sets the colour, the code 0 resets it.
   */
  lemma ColoredParse(hello: string, world: string)
    requires Esc !in hello && Esc !in world && hello != "" && world != ""
    ensures Parse(Colored(hello, world)) == [Segment(hello, NoStyle.(color := Some("#ff0000"))), Segment(world, NoStyle)]
  {
    var s := Colored(hello, world);
    var a := 5 + |hello|;
    ColoredScan(hello, world);
    ColoredParts(hello, world);
    RedCode();
    ColoredRenderRest(hello, world);
    assert Params(s, Hit(0, 5)) == "31" && Command(s, Hit(0, 5)) == 'm';
    assert [Hit(0, 5), Hit(a, a + 4)][1..] == [Hit(a, a + 4)];
  }
}
