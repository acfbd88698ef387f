/**
 * The terminal output panel: the download button (its guard and the format
 * chooser), the file each export format produces from the session log, and
 * the two filters that decide which entries the panel and the history popup
 * show.
 */
module Export {
  import opened Common
  import opened History

  // ---------------------------------------------------------------------------
  // Shared pieces of the exports

  /** `props.time ? `${line.time.toTimeString().substring(0, 8)} ` : ''` */
  function TimePrefix(e: Entry, showTime: bool): string
  {
    if showTime then e.time.clock + " " else ""
  }

  /** The direction marker of the text export: `> ` for what was sent, `< ` for what was received. */
  function Arrow(k: Kind): string
  {
    match k
    case UserInput => "> "
    case Output => "< "
  }

  /** `props.history.map(line => line.value)` */
  function Values(h: seq<Entry>): (r: seq<string>)
    ensures |r| == |h| && forall i :: 0 <= i < |h| ==> r[i] == h[i].value
  {
    seq(|h|, i requires 0 <= i < |h| => h[i].value)
  }

  /** No stored value holds a line break. */
  predicate SingleLineValues(h: seq<Entry>)
  {
    forall i :: 0 <= i < |h| ==> '\n' !in h[i].value
  }

  // ---------------------------------------------------------------------------
  // txt

  /** One line of the text export: optional time, direction marker, the value as stored. */
  function TxtLine(e: Entry, showTime: bool): string
  {
    TimePrefix(e, showTime) + Arrow(e.kind) + e.value
  }

  function TxtLines(h: seq<Entry>, showTime: bool): (r: seq<string>)
    ensures |r| == |h| && forall i :: 0 <= i < |h| ==> r[i] == TxtLine(h[i], showTime)
  {
    seq(|h|, i requires 0 <= i < |h| => TxtLine(h[i], showTime))
  }

  /** The `txt` export: the lines joined with `'\n'`. */
  function TxtContent(h: seq<Entry>, showTime: bool): string
  {
    Join(TxtLines(h, showTime), '\n')
  }

  /**
   * Reading a text export back line by line gives one line per entry, in
   * order: the entry's time and a space when times are shown, its direction
   * marker, and its value exactly as stored (nothing is stripped or escaped).
   */
  lemma TxtReadBack(h: seq<Entry>, showTime: bool)
    requires |h| >= 1 && SingleLineValues(h)
    requires showTime ==> forall i :: 0 <= i < |h| ==> '\n' !in h[i].time.clock
    ensures |Split(TxtContent(h, showTime), '\n')| == |h|
    ensures forall i :: 0 <= i < |h| ==>
              Split(TxtContent(h, showTime), '\n')[i] == TimePrefix(h[i], showTime) + Arrow(h[i].kind) + h[i].value
  {
    var lines := TxtLines(h, showTime);
    forall i | 0 <= i < |lines|
      ensures '\n' !in lines[i]
    {
      assert lines[i] == TimePrefix(h[i], showTime) + Arrow(h[i].kind) + h[i].value;
    }
    SplitJoin(lines, '\n');
  }

  // ---------------------------------------------------------------------------
  // csv

  /** `value.replace(/"/g, '""')`: every double quote doubled. */
  function EscapeQuotes(v: string): (r: string)
    ensures |r| >= |v|
  {
    if |v| == 0 then ""
    else (if v[0] == '"' then "\"\"" else [v[0]]) + EscapeQuotes(v[1..])
  }

  /** A value as a quoted CSV field. */
  function CsvField(v: string): string
  {
    "\"" + EscapeQuotes(v) + "\""
  }

  /** One row of the `csv` export: ISO time, entry type, quoted value. */
  function CsvRow(e: Entry): string
  {
    e.time.iso + "," + KindName(e.kind) + "," + CsvField(e.value)
  }

  function CsvRows(h: seq<Entry>): (r: seq<string>)
    ensures |r| == |h| && forall i :: 0 <= i < |h| ==> r[i] == CsvRow(h[i])
  {
    seq(|h|, i requires 0 <= i < |h| => CsvRow(h[i]))
  }

  const CsvHeader: string := "Timestamp,Type,Value\n"

  /** The `csv` export: the header line, then the rows joined with `'\n'`. */
  function CsvContent(h: seq<Entry>): string
  {
    CsvHeader + Join(CsvRows(h), '\n')
  }

  /**
   * How a CSV reader takes the inside of a quoted field apart: a doubled
   * quote is one quote, a single quote closes the field. The result is the
   * field's value and what follows the closing quote.
   */
  function ReadQuotedBody(s: string): Option<(string, string)>
  {
    if |s| == 0 then None
    else if s[0] == '"' then
      if |s| > 1 && s[1] == '"' then
        match ReadQuotedBody(s[2..])
        case None => None
        case Some(p) => Some(("\"" + p.0, p.1))
      else Some(("", s[1..]))
    else
      match ReadQuotedBody(s[1..])
      case None => None
      case Some(p) => Some(([s[0]] + p.0, p.1))
  }

  /** A quoted CSV field at the start of `s`. */
  function ReadField(s: string): Option<(string, string)>
  {
    if |s| > 0 && s[0] == '"' then ReadQuotedBody(s[1..]) else None
  }

  /** A quote of the value is written doubled, and a doubled quote reads as one quote. */
  lemma ReadEscapedQuote(v: string, rest: string)
    requires |v| > 0 && v[0] == '"'
    requires ReadQuotedBody(EscapeQuotes(v[1..]) + "\"" + rest) == Some((v[1..], rest))
    ensures ReadQuotedBody(EscapeQuotes(v) + "\"" + rest) == Some((v, rest))
  {
    var tail := EscapeQuotes(v[1..]) + "\"" + rest;
    assert EscapeQuotes(v) + "\"" + rest == ['"', '"'] + tail;
    assert (['"', '"'] + tail)[2..] == tail;
    assert v == "\"" + v[1..];
  }

  /** Any other character is written and read as itself. */
  lemma ReadEscapedPlain(v: string, rest: string)
    requires |v| > 0 && v[0] != '"'
    requires ReadQuotedBody(EscapeQuotes(v[1..]) + "\"" + rest) == Some((v[1..], rest))
    ensures ReadQuotedBody(EscapeQuotes(v) + "\"" + rest) == Some((v, rest))
  {
    var tail := EscapeQuotes(v[1..]) + "\"" + rest;
    assert EscapeQuotes(v) + "\"" + rest == [v[0]] + tail;
    assert ([v[0]] + tail)[1..] == tail;
    assert v == [v[0]] + v[1..];
  }

  /** The escaped body, then the closing quote, reads back as the value. */
  lemma {:induction false} ReadEscaped(v: string, rest: string)
    requires |rest| == 0 || rest[0] != '"'
    ensures ReadQuotedBody(EscapeQuotes(v) + "\"" + rest) == Some((v, rest))
    decreases |v|
  {
    if |v| == 0 {
      assert EscapeQuotes(v) + "\"" + rest == ['"'] + rest;
    } else {
      ReadEscaped(v[1..], rest);
      if v[0] == '"' {
        ReadEscapedQuote(v, rest);
      } else {
        ReadEscapedPlain(v, rest);
      }
    }
  }

  /**
   * The quoting round-trips: a CSV reader gets back the value exactly as
   * stored, quotes included, and stops right after the field, whatever
   * follows (short of another quote, which would make the closing quote a
   * doubled one).
   */
  lemma CsvFieldReadBack(v: string, rest: string)
    requires |rest| == 0 || rest[0] != '"'
    ensures ReadField(CsvField(v) + rest) == Some((v, rest))
  {
    ReadEscaped(v, rest);
    assert CsvField(v) + rest == ['"'] + (EscapeQuotes(v) + "\"" + rest);
  }

  /**
   * A CSV export splits into the header and one row per entry; each row
   * starts with the ISO time and the entry type, and its field reads back as
   * the stored value. (Values holding a line break are excluded only
   * because such a row spans two lines.)
   */
  lemma CsvReadBack(h: seq<Entry>)
    requires |h| >= 1 && SingleLineValues(h)
    requires forall i :: 0 <= i < |h| ==> '\n' !in h[i].time.iso
    ensures CsvContent(h)[..|CsvHeader|] == CsvHeader
    ensures Split(CsvContent(h)[|CsvHeader|..], '\n') == CsvRows(h)
    ensures forall i :: 0 <= i < |h| ==>
              var prefix := h[i].time.iso + "," + KindName(h[i].kind) + ",";
              CsvRows(h)[i][..|prefix|] == prefix && ReadField(CsvRows(h)[i][|prefix|..]) == Some((h[i].value, ""))
  {
    var rows := CsvRows(h);
    forall i | 0 <= i < |rows|
      ensures '\n' !in rows[i]
    {
      NoBreakInField(h[i].value);
      assert '\n' !in KindName(h[i].kind);
    }
    SplitJoin(rows, '\n');
    assert CsvContent(h)[|CsvHeader|..] == Join(rows, '\n');
    forall i | 0 <= i < |h|
      ensures var prefix := h[i].time.iso + "," + KindName(h[i].kind) + ",";
              rows[i][..|prefix|] == prefix && ReadField(rows[i][|prefix|..]) == Some((h[i].value, ""))
    {
      var prefix := h[i].time.iso + "," + KindName(h[i].kind) + ",";
      assert rows[i] == prefix + CsvField(h[i].value);
      assert rows[i][|prefix|..] == CsvField(h[i].value) + "";
      CsvFieldReadBack(h[i].value, "");
    }
  }

  /** Quoting adds no line break. */
  lemma {:induction false} NoBreakInField(v: string)
    requires '\n' !in v
    ensures '\n' !in CsvField(v)
  {
    NoBreakEscaped(v);
  }

  lemma {:induction false} NoBreakEscaped(v: string)
    requires '\n' !in v
    ensures '\n' !in EscapeQuotes(v)
    decreases |v|
  {
    if |v| > 0 {
      assert '\n' !in v[1..] by { assert forall x :: x in v[1..] ==> x in v; }
      NoBreakEscaped(v[1..]);
    }
  }

  // ---------------------------------------------------------------------------
  // md

  const MdFence: string := "```"

  /** The block the `md` export writes for one entry: a heading line, then the value in a code fence. */
  function MdBlock(e: Entry, showTime: bool): string
  {
    var time := TimePrefix(e, showTime);
    match e.kind
    case UserInput => "**" + time + "Input:**\n" + MdFence + "\n" + e.value + "\n" + MdFence + "\n\n"
    case Output => time + "Output:\n" + MdFence + "\n" + e.value + "\n" + MdFence + "\n\n"
  }

  /** The heading line of an entry's block, up to and including the opening fence. */
  function MdOpening(e: Entry, showTime: bool): string
  {
    var time := TimePrefix(e, showTime);
    match e.kind
    case UserInput => "**" + time + "Input:**\n" + MdFence + "\n"
    case Output => time + "Output:\n" + MdFence + "\n"
  }

  /** The fixed start of the `md` export, with the time it was generated. */
  function MdHeader(generated: string): string
  {
    "# Terminal Output\n\n" + "Generated: " + generated + "\n\n" + "## Session Log\n\n"
  }

  /** The block of every entry, in order. */
  function MdBlocks(h: seq<Entry>, showTime: bool): (r: seq<string>)
    ensures |r| == |h| && forall i :: 0 <= i < |h| ==> r[i] == MdBlock(h[i], showTime)
  {
    seq(|h|, i requires 0 <= i < |h| => MdBlock(h[i], showTime))
  }

  /** The log part of the `md` export: the blocks one after the other. */
  function MdLog(h: seq<Entry>, showTime: bool): string
  {
    Concat(MdBlocks(h, showTime))
  }

  /** The log of two stretches of history is the log of the first, then of the second. */
  lemma MdLogAppend(a: seq<Entry>, b: seq<Entry>, showTime: bool)
    ensures MdLog(a + b, showTime) == MdLog(a, showTime) + MdLog(b, showTime)
  {
    assert MdBlocks(a + b, showTime) == MdBlocks(a, showTime) + MdBlocks(b, showTime);
    ConcatAppend(MdBlocks(a, showTime), MdBlocks(b, showTime));
  }

  /** A single entry's log is its block. */
  lemma MdLogSingle(e: Entry, showTime: bool)
    ensures MdLog([e], showTime) == MdBlock(e, showTime)
  {
    assert MdBlocks([e], showTime) == [MdBlock(e, showTime)];
    assert Concat([MdBlock(e, showTime)]) == Concat([MdBlock(e, showTime)][..0]) + MdBlock(e, showTime);
  }

  /** One more entry adds its block at the end of the log. */
  lemma MdLogSnoc(h: seq<Entry>, i: nat, showTime: bool)
    requires i < |h|
    ensures MdLog(h[..i + 1], showTime) == MdLog(h[..i], showTime) + MdBlock(h[i], showTime)
  {
    assert MdBlocks(h[..i + 1], showTime) == MdBlocks(h[..i], showTime) + [MdBlock(h[i], showTime)];
    ConcatSnoc(MdBlocks(h[..i], showTime), MdBlock(h[i], showTime));
  }

  /**
   * The `md` export as the code builds it: the header, then one `+=` of a
   * block per entry.
   */
  method MdContent(h: seq<Entry>, showTime: bool, generated: string) returns (content: string)
    ensures content == MdHeader(generated) + MdLog(h, showTime)
  {
    content := "# Terminal Output\n\n";
    content := content + "Generated: " + generated + "\n\n";
    content := content + "## Session Log\n\n";
    assert MdLog(h[..0], showTime) == "";
    assert content == MdHeader(generated) + "";
    for i := 0 to |h|
      invariant content == MdHeader(generated) + MdLog(h[..i], showTime)
    {
      var line := h[i];
      var time := if showTime then line.time.clock + " " else "";
      if line.kind == UserInput {
        content := content + ("**" + time + "Input:**\n" + MdFence + "\n" + line.value + "\n" + MdFence + "\n\n");
      } else {
        content := content + (time + "Output:\n" + MdFence + "\n" + line.value + "\n" + MdFence + "\n\n");
      }
      MdLogSnoc(h, i, showTime);
      AppendAssoc(MdHeader(generated), MdLog(h[..i], showTime), MdBlock(h[i], showTime));
    }
    assert h[..|h|] == h;
  }

  /** A block is its opening, the value exactly as stored, the closing fence and a blank line. */
  lemma MdBlockParts(e: Entry, showTime: bool)
    ensures MdBlock(e, showTime) == MdOpening(e, showTime) + e.value + ("\n" + MdFence) + "\n\n"
  {
  }

  /** The log around entry `i`: the blocks before it, its block, the blocks after it. */
  lemma MdLogAround(h: seq<Entry>, i: nat, showTime: bool)
    requires i < |h|
    ensures MdLog(h, showTime) == MdLog(h[..i], showTime) + MdBlock(h[i], showTime) + MdLog(h[i + 1..], showTime)
  {
    assert h == h[..i] + ([h[i]] + h[i + 1..]);
    MdLogAppend(h[..i], [h[i]] + h[i + 1..], showTime);
    MdLogAppend([h[i]], h[i + 1..], showTime);
    MdLogSingle(h[i], showTime);
  }

  /**
   * Every entry's value appears in the `md` export unchanged, inside a fenced
   * code block: the export is what comes before, the entry's heading line
   * ending in an opening fence line, the value exactly as stored, a line
   * break and the closing fence, then what comes after.
   */
  lemma MdValueFenced(h: seq<Entry>, i: nat, showTime: bool, generated: string)
    requires i < |h|
    ensures var opening := MdOpening(h[i], showTime);
            |opening| >= 4 && opening[|opening| - 4..] == MdFence + "\n"
    ensures MdHeader(generated) + MdLog(h, showTime)
            == (MdHeader(generated) + MdLog(h[..i], showTime) + MdOpening(h[i], showTime))
               + h[i].value + ("\n" + MdFence) + ("\n\n" + MdLog(h[i + 1..], showTime))
  {
    var header, before, after := MdHeader(generated), MdLog(h[..i], showTime), MdLog(h[i + 1..], showTime);
    var opening, v, close := MdOpening(h[i], showTime), h[i].value, "\n" + MdFence;
    MdLogAround(h, i, showTime);
    MdBlockParts(h[i], showTime);
    Regroup(header, before, opening, v, close, "\n\n", after);
  }

  // ---------------------------------------------------------------------------
  // default

  /** Any other format: the values joined with `'\n'`, nothing else. */
  function PlainContent(h: seq<Entry>): string
  {
    Join(Values(h), '\n')
  }

  /** Splitting the plain export at line breaks gives back the values as stored. */
  lemma PlainReadBack(h: seq<Entry>)
    requires |h| >= 1 && SingleLineValues(h)
    ensures Split(PlainContent(h), '\n') == Values(h)
  {
    SplitJoin(Values(h), '\n');
  }

  // ---------------------------------------------------------------------------
  // The file

  /** `.replace(/:/g, '-')` */
  function DashColons(s: string): (r: string)
    ensures |r| == |s| && ':' !in r
    ensures forall i :: 0 <= i < |s| && s[i] != ':' ==> r[i] == s[i]
    ensures forall i :: 0 <= i < |s| && s[i] == ':' ==> r[i] == '-'
    ensures ':' !in s ==> r == s
  {
    seq(|s|, i requires 0 <= i < |s| => if s[i] == ':' then '-' else s[i])
  }

  /** `terminal-output-${new Date().toISOString().slice(0, 19).replace(/:/g, '-')}` */
  function FileStem(nowIso: string): string
  {
    "terminal-output-" + DashColons(nowIso[..if |nowIso| < 19 then |nowIso| else 19])
  }

  /** The file name has no colon, and keeps the first 19 characters of the time otherwise. */
  lemma FileStemNoColon(nowIso: string)
    ensures ':' !in FileStem(nowIso)
    ensures |FileStem(nowIso)| == 16 + (if |nowIso| < 19 then |nowIso| else 19)
  {
    var t := nowIso[..if |nowIso| < 19 then |nowIso| else 19];
    var d := DashColons(t);
    assert forall i :: 0 <= i < |d| ==> d[i] != ':';
    assert FileStem(nowIso) == "terminal-output-" + d;
  }

  /** The record the `json` export writes per entry; the serialisation itself is the library's. */
  datatype JsonRecord = JsonRecord(timestamp: string, kind: string, value: string)

  /** What the file holds. */
  datatype Body = Text(text: string) | Json(records: seq<JsonRecord>)

  /** A download: the file name, what it holds and its MIME type. */
  datatype Download = Download(filename: string, body: Body, mimeType: string)

  function JsonRecords(h: seq<Entry>): (r: seq<JsonRecord>)
    ensures |r| == |h|
  {
    seq(|h|, i requires 0 <= i < |h| => JsonRecord(h[i].time.iso, KindName(h[i].kind), h[i].value))
  }

  /**
   * `performDownload(format)`: the file for a format, given the time the
   * file name is taken from and the time the `md` header reports.
   */
  function PerformDownload(h: seq<Entry>, format: string, showTime: bool, nowIso: string, generated: string): (d: Download)
  {
    var stem := FileStem(nowIso);
    if format == "txt" then Download(stem + ".txt", Text(TxtContent(h, showTime)), "text/plain")
    else if format == "csv" then Download(stem + ".csv", Text(CsvContent(h)), "text/csv")
    else if format == "json" then Download(stem + ".json", Json(JsonRecords(h)), "application/json")
    else if format == "md" then Download(stem + ".md", Text(MdHeader(generated) + MdLog(h, showTime)), "text/markdown")
    else Download(stem + ".txt", Text(PlainContent(h)), "text/plain")
  }

  /**
   * Each known format names its file after itself with its own MIME type;
   * any other format writes the plain values to a `.txt` file as text.
   * Every file name starts with the stem from the current time.
   */
  lemma PerformDownloadKinds(h: seq<Entry>, format: string, showTime: bool, nowIso: string, generated: string)
    ensures var d := PerformDownload(h, format, showTime, nowIso, generated);
            d.filename[..|FileStem(nowIso)|] == FileStem(nowIso)
            && (format in {"txt", "csv", "json", "md"} ==> d.filename == FileStem(nowIso) + "." + format)
            && (format !in {"txt", "csv", "json", "md"} ==>
                  d.filename == FileStem(nowIso) + ".txt" && d.mimeType == "text/plain" && d.body == Text(PlainContent(h)))
            && (d.body.Json? <==> format == "json")
  {
  }

  // ---------------------------------------------------------------------------
  // The download button

  /** What a click on the download button leads to. */
  datatype Action = Ignore | Ask | Perform(format: string)

  /**
   * `handleDownload`'s decision: nothing on an empty history; the chooser
   * when the configured format is `'ask'` or unset (`|| 'ask'` also treats
   * the empty string as unset); the configured format otherwise.
   */
  function DownloadAction(h: seq<Entry>, downloadFormat: Option<string>): (r: Action)
    ensures r == Ignore <==> |h| == 0
    ensures r == Ask <==> |h| > 0 && (downloadFormat == None || downloadFormat == Some("") || downloadFormat == Some("ask"))
    ensures r.Perform? ==> downloadFormat == Some(r.format) && r.format != "" && r.format != "ask"
  {
    if |h| == 0 then Ignore
    else
      var format := if downloadFormat == None || downloadFormat == Some("") then "ask" else downloadFormat.value;
      if format == "ask" then Ask else Perform(format)
  }

  /** The panel's own state around downloads: the format chooser and its selection. */
  class DownloadPanel {
    var formatDialogOpen: bool
    var selectedFormat: string

    constructor ()
      ensures !formatDialogOpen && selectedFormat == "txt"
    {
      formatDialogOpen := false;
      selectedFormat := "txt";
    }

    /**
     * A click on the download button: the guard, then either the chooser
     * (preset to `txt`) or the file in the configured format.
     */
    method HandleDownload(h: seq<Entry>, downloadFormat: Option<string>, showTime: bool, nowIso: string, generated: string)
      returns (d: Option<Download>)
      modifies this
      ensures DownloadAction(h, downloadFormat) == Ask ==> d == None && formatDialogOpen && selectedFormat == "txt"
      ensures DownloadAction(h, downloadFormat) != Ask ==> unchanged(this)
      ensures DownloadAction(h, downloadFormat) == Ignore ==> d == None
      ensures DownloadAction(h, downloadFormat).Perform? ==>
                d == Some(PerformDownload(h, DownloadAction(h, downloadFormat).format, showTime, nowIso, generated))
    {
      if |h| == 0 {
        return None;
      }
      var format := if downloadFormat == None || downloadFormat == Some("") then "ask" else downloadFormat.value;
      if format == "ask" {
        selectedFormat := "txt";
        formatDialogOpen := true;
        return None;
      }
      d := Some(PerformDownload(h, format, showTime, nowIso, generated));
    }

    /** A choice in the format chooser. */
    method SelectFormat(format: string)
      modifies this
      ensures selectedFormat == format && formatDialogOpen == old(formatDialogOpen)
    {
      selectedFormat := format;
    }

    /** Cancelling or dismissing the chooser: it closes and nothing is downloaded. */
    method CancelFormat()
      modifies this
      ensures !formatDialogOpen && selectedFormat == old(selectedFormat)
    {
      formatDialogOpen := false;
    }

    /** Confirming the chooser: the file in the selected format, and the chooser closes. */
    method HandleFormatConfirm(h: seq<Entry>, showTime: bool, nowIso: string, generated: string) returns (d: Download)
      modifies this
      ensures d == PerformDownload(h, old(selectedFormat), showTime, nowIso, generated)
      ensures !formatDialogOpen && selectedFormat == old(selectedFormat)
    {
      d := PerformDownload(h, selectedFormat, showTime, nowIso, generated);
      formatDialogOpen := false;
    }
  }

  // ---------------------------------------------------------------------------
  // What the panel and the history popup list

  /** The entries the panel shows: every received line, and what was sent only when echo is on. */
  function Displayed(h: seq<Entry>, echo: bool): (r: seq<Entry>)
    ensures |r| <= |h|
  {
    if |h| == 0 then []
    else (if h[0].kind == Output || echo then [h[0]] else []) + Displayed(h[1..], echo)
  }

  /** The entries the history popup offers: only what the user sent. */
  function UserInputs(h: seq<Entry>): (r: seq<Entry>)
    ensures |r| <= |h|
  {
    if |h| == 0 then []
    else (if h[0].kind == UserInput then [h[0]] else []) + UserInputs(h[1..])
  }

  /** An entry is shown exactly when it is in the history and is output, or echo is on. */
  lemma {:induction false} DisplayedMembers(h: seq<Entry>, echo: bool, e: Entry)
    ensures e in Displayed(h, echo) <==> e in h && (e.kind == Output || echo)
    decreases |h|
  {
    if |h| > 0 {
      DisplayedMembers(h[1..], echo, e);
      assert h == [h[0]] + h[1..];
    }
  }

  /** An entry is offered by the popup exactly when it is in the history and was sent by the user. */
  lemma {:induction false} UserInputsMembers(h: seq<Entry>, e: Entry)
    ensures e in UserInputs(h) <==> e in h && e.kind == UserInput
    decreases |h|
  {
    if |h| > 0 {
      UserInputsMembers(h[1..], e);
      assert h == [h[0]] + h[1..];
    }
  }

  /** With echo on the panel shows the whole history, in order. */
  lemma {:induction false} DisplayedEcho(h: seq<Entry>)
    ensures Displayed(h, true) == h
    decreases |h|
  {
    if |h| > 0 {
      DisplayedEcho(h[1..]);
      assert h == [h[0]] + h[1..];
    }
  }

  /** The panel's filter keeps the order: filtering a concatenation concatenates the filtered parts. */
  lemma {:induction false} DisplayedAppend(a: seq<Entry>, b: seq<Entry>, echo: bool)
    ensures Displayed(a + b, echo) == Displayed(a, echo) + Displayed(b, echo)
    decreases |a|
  {
    if |a| == 0 {
      assert a + b == b;
    } else {
      assert (a + b)[1..] == a[1..] + b;
      DisplayedAppend(a[1..], b, echo);
      var head := if a[0].kind == Output || echo then [a[0]] else [];
      assert Displayed(a + b, echo) == head + Displayed(a[1..] + b, echo);
    }
  }

  /** The popup's filter keeps the order likewise. */
  lemma {:induction false} UserInputsAppend(a: seq<Entry>, b: seq<Entry>)
    ensures UserInputs(a + b) == UserInputs(a) + UserInputs(b)
    decreases |a|
  {
    if |a| == 0 {
      assert a + b == b;
    } else {
      assert (a + b)[1..] == a[1..] + b;
      UserInputsAppend(a[1..], b);
      var head := if a[0].kind == UserInput then [a[0]] else [];
      assert UserInputs(a + b) == head + UserInputs(a[1..] + b);
    }
  }

  /** Without echo, the panel and the popup split the history between them. */
  lemma {:induction false} FiltersPartition(h: seq<Entry>)
    ensures |Displayed(h, false)| + |UserInputs(h)| == |h|
    decreases |h|
  {
    if |h| > 0 {
      FiltersPartition(h[1..]);
    }
  }
}
