/**
 * The session logic of src/components/terminal/Terminal.jsx: splitting
 * received text into complete lines (carrying the incomplete tail to the next
 * delivery), the capped history, sending the input line, clearing, and the
 * first-match keydown resolver over built-in control keys, control aliases and
 * command keybinds.
 *
 * React state becomes the fields of `Session`; `props.send` / `props.sendRaw`
 * become a ghost log of transmissions; `new Date()` is the `now` parameter.
 */
module Terminal {
  import opened Common
  import opened History

  /** `CTRL_C` and `CTRL_D` as character codes. */
  const CtrlC: int := 3
  const CtrlD: int := 4

  // ---------------------------------------------------------------------------
  // Received-line splitting

  /**
   * The splitter's decision on `carry + incoming`: the complete lines it emits
   * and the new carry. Nothing is lost: the emitted lines, each followed by a
   * newline, then the new carry, spell out the old carry and the incoming text;
   * the new carry never holds a newline.
   */
  function CompleteLines(carry: string, incoming: string): (r: (seq<string>, string))
    ensures '\n' !in r.1
    ensures forall i :: 0 <= i < |r.0| ==> '\n' !in r.0[i]
    ensures |r.0| > 0 <==> '\n' in carry + incoming
    ensures |r.0| > 0 ==> Join(r.0, '\n') + "\n" + r.1 == carry + incoming
    ensures |r.0| == 0 ==> r.1 == carry + incoming
  {
    var str := carry + incoming;
    var lines := Split(str, '\n');
    SplitMany(str, '\n');
    if |lines| > 1 then
      var emitted := lines[..|lines| - 1];
      JoinSplit(str, '\n');
      JoinSnoc(emitted, lines[|lines| - 1], '\n');
      assert emitted + [lines[|lines| - 1]] == lines;
      (emitted, lines[|lines| - 1])
    else
      (lines[..0], str)
  }

  /** The entries the splitter records for the emitted lines. */
  function OutputLines(lines: seq<string>, time: Stamp): seq<Entry>
  {
    seq(|lines|, i requires 0 <= i < |lines| => Entry(Output, lines[i], time))
  }

  /** `lines.forEach(line => newLines.push({ type: 'output', value: line, time }))` */
  method OutputEntries(lines: seq<string>, time: Stamp) returns (newLines: seq<Entry>)
    ensures |newLines| == |lines|
    ensures forall i :: 0 <= i < |lines| ==>
              newLines[i].kind == Output && newLines[i].value == lines[i] && newLines[i].time == time
  {
    newLines := [];
    for i := 0 to |lines|
      invariant |newLines| == i
      invariant forall j :: 0 <= j < i ==>
                  newLines[j].kind == Output && newLines[j].value == lines[j] && newLines[j].time == time
    {
      newLines := newLines + [Entry(Output, lines[i], time)];
    }
  }

  // ---------------------------------------------------------------------------
  // Keydown resolution

  /** The parts of a `keydown` event the resolver reads. */
  datatype KeyEvent = KeyEvent(key: string, ctrlKey: bool, metaKey: bool, shiftKey: bool)

  /** A binding's `key` (empty when falsy) and `shift` (`None` when not a boolean). */
  datatype Binding = Binding(key: string, shift: Option<bool>)

  /** A control alias: `{ key, shift, type, value }`. */
  datatype ControlAlias = ControlAlias(binding: Binding, kind: string, value: JsValue)

  /** A command keybind: `{ key, shift, text }`. */
  datatype CommandKeybind = CommandKeybind(binding: Binding, text: JsValue)

  /** The props the resolver consults; a missing table is an empty one. */
  datatype KeyConfig = KeyConfig(
    ctrlC: bool,
    ctrlD: bool,
    controlAliases: seq<ControlAlias>,
    commandKeybinds: seq<CommandKeybind>)

  /** What a keydown makes the terminal do. */
  datatype Action =
    | Unhandled                        // default behaviour, no `preventDefault`
    | SendRaw(code: int)               // `props.sendRaw(code)`
    | SendText(text: string)           // `props.send(text)`
    | SendTextAndRecord(text: string)  // `props.send(text)` and a `userInput` history entry
    | ConsumedNoOp                     // `preventDefault` and nothing else

  /** `kb?.key && kb.key.toLowerCase() === charCode.toLowerCase() && kb.shift === hasShift` */
  predicate BindingMatches(b: Binding, charCode: string, hasShift: bool)
  {
    b.key != "" && SameIgnoringCase(b.key, charCode) && b.shift == Some(hasShift)
  }

  /** `findKeybindMatch`: the index of the earliest matching binding, if any. */
  function FindKeybindMatch(bindings: seq<Binding>, charCode: string, hasShift: bool): (r: Option<nat>)
    ensures r.Some? ==> r.value < |bindings| && BindingMatches(bindings[r.value], charCode, hasShift)
    ensures r.Some? ==> forall j :: 0 <= j < r.value ==> !BindingMatches(bindings[j], charCode, hasShift)
    ensures r.None? <==> forall j :: 0 <= j < |bindings| ==> !BindingMatches(bindings[j], charCode, hasShift)
  {
    if |bindings| == 0 then None
    else if BindingMatches(bindings[0], charCode, hasShift) then Some(0)
    else match FindKeybindMatch(bindings[1..], charCode, hasShift)
      case None =>
        assert forall j :: 1 <= j < |bindings| ==> bindings[j] == bindings[1..][j - 1];
        None
      case Some(i) =>
        assert forall j :: 1 <= j <= i ==> bindings[j] == bindings[1..][j - 1];
        Some(i + 1)
  }

  /*
   * The two lists the key handler searches, projected to their bindings.
   * Aliases and command keybinds are different records sharing one
   * `Binding`, so the same projection is written once for each.
   */
  function AliasBindings(aliases: seq<ControlAlias>): (r: seq<Binding>)
    ensures |r| == |aliases| && forall i :: 0 <= i < |aliases| ==> r[i] == aliases[i].binding
  {
    seq(|aliases|, i requires 0 <= i < |aliases| => aliases[i].binding)
  }

  function CommandBindings(keybinds: seq<CommandKeybind>): (r: seq<Binding>)
    ensures |r| == |keybinds| && forall i :: 0 <= i < |keybinds| ==> r[i] == keybinds[i].binding
  {
    seq(|keybinds|, i requires 0 <= i < |keybinds| => keybinds[i].binding)
  }

  /** The payload of a matched control alias. */
  function AliasAction(a: ControlAlias): Action
  {
    if a.kind == "code" && a.value.Num? then SendRaw(a.value.n)
    else if a.kind == "text" && a.value.Str? then SendText(a.value.s)
    else ConsumedNoOp
  }

  /** `handleKeyDown`'s decision, first match wins. */
  function ResolveKey(e: KeyEvent, cfg: KeyConfig): (act: Action)
    ensures !(e.ctrlKey || e.metaKey) || Utf16Length(e.key) != 1 ==> act == Unhandled
    ensures act.SendTextAndRecord? ==>
              && (forall j :: 0 <= j < |cfg.controlAliases| ==> !BindingMatches(cfg.controlAliases[j].binding, e.key, false))
              && (exists j :: 0 <= j < |cfg.commandKeybinds| &&
                    BindingMatches(cfg.commandKeybinds[j].binding, e.key, e.shiftKey) &&
                    cfg.commandKeybinds[j].text == Str(act.text))
    ensures act.SendText? || act.ConsumedNoOp? ==>
              exists j :: 0 <= j < |cfg.controlAliases| && BindingMatches(cfg.controlAliases[j].binding, e.key, false)
    ensures act.SendRaw? ==>
              || (cfg.ctrlC && IsKey(e, "c", "C") && !e.shiftKey && act.code == CtrlC)
              || (cfg.ctrlD && IsKey(e, "d", "D") && !e.shiftKey && act.code == CtrlD)
              || exists j :: 0 <= j < |cfg.controlAliases| && BindingMatches(cfg.controlAliases[j].binding, e.key, false)
    ensures && !(cfg.ctrlC && IsKey(e, "c", "C") && !e.shiftKey)
            && !(cfg.ctrlD && IsKey(e, "d", "D") && !e.shiftKey)
            && (forall j :: 0 <= j < |cfg.controlAliases| ==> !BindingMatches(cfg.controlAliases[j].binding, e.key, false))
            && (forall j :: 0 <= j < |cfg.commandKeybinds| ==> !BindingMatches(cfg.commandKeybinds[j].binding, e.key, e.shiftKey))
            ==> act == Unhandled
  {
    if !(e.ctrlKey || e.metaKey) then Unhandled
    else if Utf16Length(e.key) != 1 then Unhandled
    else
      var charCode := e.key;
      var hasShift := e.shiftKey;
      if cfg.ctrlC && (charCode == "c" || charCode == "C") && !hasShift then SendRaw(CtrlC)
      else if cfg.ctrlD && (charCode == "d" || charCode == "D") && !hasShift then SendRaw(CtrlD)
      else match FindKeybindMatch(AliasBindings(cfg.controlAliases), charCode, false)
        case Some(i) => AliasAction(cfg.controlAliases[i])
        case None =>
          match FindKeybindMatch(CommandBindings(cfg.commandKeybinds), charCode, hasShift)
          case Some(i) =>
            if cfg.commandKeybinds[i].text.Str? then SendTextAndRecord(cfg.commandKeybinds[i].text.s)
            else Unhandled
          case None => Unhandled
  }

  /** `'c'.toUpperCase() === 'C'`: the two spellings of the built-in key. */
  predicate IsKey(e: KeyEvent, lower: string, upper: string)
  {
    e.key == lower || e.key == upper
  }

  /**
   * Built-ins take precedence: with Ctrl+C (resp. Ctrl+D) enabled, Ctrl/Meta+c
   * (resp. d) without Shift sends byte 3 (resp. 4), whatever aliases or
   * keybinds are bound to the same key.
   */
  lemma BuiltinsWin(e: KeyEvent, cfg: KeyConfig)
    requires e.ctrlKey || e.metaKey
    requires !e.shiftKey
    ensures cfg.ctrlC && IsKey(e, "c", "C") ==> ResolveKey(e, cfg) == SendRaw(3)
    ensures cfg.ctrlD && IsKey(e, "d", "D") ==> ResolveKey(e, cfg) == SendRaw(4)
  {
  }

  /**
   * A key outside the Basic Multilingual Plane has JavaScript length 2, so the
   * resolver leaves it unhandled even when a binding names that character.
   */
  lemma AstralKeyUnhandled(e: KeyEvent, cfg: KeyConfig)
    requires |e.key| == 1 && e.key[0] as int >= 0x1_0000
    ensures ResolveKey(e, cfg) == Unhandled
  {
    SingleCodeUnit(e.key);
  }

  /**
   * Unless a built-in takes the key, the earliest control alias bound to it
   * (with `shift === false`) decides the action, also with Shift held (so
   * Ctrl+Shift+C reaches an alias on `c` even with Ctrl+C enabled); no command
   * keybind is consulted. Away from the built-in keys the event's own Shift
   * state plays no part.
   */
  lemma {:induction false} AliasDecides(e: KeyEvent, cfg: KeyConfig, i: nat)
    requires e.ctrlKey || e.metaKey
    requires Utf16Length(e.key) == 1
    requires !(cfg.ctrlC && IsKey(e, "c", "C") && !e.shiftKey) && !(cfg.ctrlD && IsKey(e, "d", "D") && !e.shiftKey)
    requires i < |cfg.controlAliases| && BindingMatches(cfg.controlAliases[i].binding, e.key, false)
    requires forall j :: 0 <= j < i ==> !BindingMatches(cfg.controlAliases[j].binding, e.key, false)
    ensures ResolveKey(e, cfg) == AliasAction(cfg.controlAliases[i])
    ensures !(cfg.ctrlC && IsKey(e, "c", "C")) && !(cfg.ctrlD && IsKey(e, "d", "D")) ==>
              ResolveKey(e.(shiftKey := !e.shiftKey), cfg) == ResolveKey(e, cfg)
  {
  }

  /**
   * A command keybind fires only when no control alias claims the key, and the
   * earliest keybind matching key and exact Shift state decides: its text is
   * sent and recorded, or, if its text is not a string, the key is unhandled.
   */
  lemma {:induction false} KeybindDecides(e: KeyEvent, cfg: KeyConfig, i: nat)
    requires e.ctrlKey || e.metaKey
    requires Utf16Length(e.key) == 1
    requires !(cfg.ctrlC && IsKey(e, "c", "C") && !e.shiftKey) && !(cfg.ctrlD && IsKey(e, "d", "D") && !e.shiftKey)
    requires forall j :: 0 <= j < |cfg.controlAliases| ==> !BindingMatches(cfg.controlAliases[j].binding, e.key, false)
    requires i < |cfg.commandKeybinds| && BindingMatches(cfg.commandKeybinds[i].binding, e.key, e.shiftKey)
    requires forall j :: 0 <= j < i ==> !BindingMatches(cfg.commandKeybinds[j].binding, e.key, e.shiftKey)
    ensures ResolveKey(e, cfg) ==
              if cfg.commandKeybinds[i].text.Str? then SendTextAndRecord(cfg.commandKeybinds[i].text.s) else Unhandled
  {
  }

  // ---------------------------------------------------------------------------
  // The terminal's state

  /** A call to `props.send` or `props.sendRaw`. */
  datatype Transmission = Text(text: string) | Raw(code: int)

  class Session {
    /** The input field. */
    var input: string
    /** `received.current`: the incomplete trailing line. */
    var carry: string
    var history: seq<Entry>
    /** Everything handed to `props.send` / `props.sendRaw`, in order. */
    ghost var sent: seq<Transmission>

    ghost predicate Valid()
      reads this
    {
      |history| <= MaxHistoryLength && '\n' !in carry
    }

    constructor ()
      ensures Valid()
      ensures input == "" && carry == "" && history == [] && sent == []
    {
      input := "";
      carry := "";
      history := [];
      sent := [];
    }

    /** `setInput`, from the input field or the history popup. */
    method SetInput(value: string)
      modifies this`input
      ensures input == value
    {
      input := value;
    }

    /** The effect on `props.received`: split `carry + value`, record complete lines, keep the rest. */
    method Receive(value: string, time: Stamp)
      requires Valid()
      modifies this`history, this`carry
      ensures Valid()
      ensures carry == CompleteLines(old(carry), value).1
      ensures history == Capped(old(history) + OutputLines(CompleteLines(old(carry), value).0, time))
    {
      var str := carry + value;
      var lines := Split(str, '\n');
      var newReceived := str;
      var newLines: seq<Entry> := [];
      if |lines| > 1 {
        newReceived := lines[|lines| - 1];
        newLines := OutputEntries(lines[..|lines| - 1], time);
      }
      assert newLines == OutputLines(CompleteLines(carry, value).0, time);
      history := Capped(history + newLines);
      carry := newReceived;
    }

    /** `handleSend`: send the input as it is, record it, clear the field. */
    method HandleSend(now: Stamp)
      requires Valid()
      modifies this`input, this`history, this`sent
      ensures Valid()
      ensures sent == old(sent) + [Text(old(input))]
      ensures history == Capped(old(history) + [Entry(UserInput, old(input), now)])
      ensures input == ""
    {
      sent := sent + [Text(input)];
      history := Capped(history + [Entry(UserInput, input, now)]);
      input := "";
    }

    /** `clearHistory`: empties both the history and the carried partial line. */
    method ClearHistory()
      requires Valid()
      modifies this`history, this`carry
      ensures Valid()
      ensures history == [] && carry == ""
    {
      history := [];
      carry := "";
    }

    /** `handleKeyDown`: carry out `ResolveKey`; the result says whether `preventDefault` was called. */
    method HandleKeyDown(e: KeyEvent, cfg: KeyConfig, now: Stamp) returns (prevented: bool)
      requires Valid()
      modifies this`history, this`sent
      ensures Valid()
      ensures prevented <==> ResolveKey(e, cfg) != Unhandled
      ensures match ResolveKey(e, cfg)
              case Unhandled => sent == old(sent) && history == old(history)
              case ConsumedNoOp => sent == old(sent) && history == old(history)
              case SendRaw(code) => sent == old(sent) + [Raw(code)] && history == old(history)
              case SendText(text) => sent == old(sent) + [Text(text)] && history == old(history)
              case SendTextAndRecord(text) =>
                sent == old(sent) + [Text(text)] &&
                history == Capped(old(history) + [Entry(UserInput, text, now)])
    {
      var act := ResolveKey(e, cfg);
      prevented := act != Unhandled;
      match act {
        case Unhandled =>
        case ConsumedNoOp =>
        case SendRaw(code) =>
          sent := sent + [Raw(code)];
        case SendText(text) =>
          sent := sent + [Text(text)];
        case SendTextAndRecord(text) =>
          sent := sent + [Text(text)];
          history := Capped(history + [Entry(UserInput, text, now)]);
      }
    }
  }

  /**
   * One delivery loses nothing: the lines it completes, each followed by a
   * newline, then the new carry, spell out the old carry followed by what
   * arrived.
   */
  lemma {:induction false} SplitterLosesNothing(carry: string, incoming: string)
    ensures var (emitted, newCarry) := CompleteLines(carry, incoming);
            Concat(Terminated(emitted)) + newCarry == carry + incoming
  {
    var (emitted, newCarry) := CompleteLines(carry, incoming);
    if |emitted| > 0 {
      TerminatedJoin(emitted);
    }
  }

  /** Each line followed by its newline. */
  function Terminated(lines: seq<string>): (r: seq<string>)
    ensures |r| == |lines|
  {
    seq(|lines|, i requires 0 <= i < |lines| => lines[i] + "\n")
  }

  lemma {:induction false} TerminatedJoin(lines: seq<string>)
    requires |lines| > 0
    ensures Concat(Terminated(lines)) == Join(lines, '\n') + "\n"
    decreases |lines|
  {
    if |lines| == 1 {
      assert Terminated(lines) == [lines[0] + "\n"];
      assert Concat([lines[0] + "\n"]) == Concat([lines[0] + "\n"][..0]) + (lines[0] + "\n");
    } else {
      TerminatedJoin(lines[1..]);
      assert Terminated(lines) == [lines[0] + "\n"] + Terminated(lines[1..]);
      ConcatCons(lines[0] + "\n", Terminated(lines[1..]));
    }
  }
}
