/**
 * The terminal's session log: entries of kind `output` (received lines) or
 * `userInput` (what the user sent), each with the time it was recorded, and
 * the cap that keeps only the newest `MaxHistoryLength` entries.
 */
module History {

  /** `line.type`: `'output'` or `'userInput'`. */
  datatype Kind = Output | UserInput

  /** The entry type as the exports write it. */
  function KindName(k: Kind): string
  {
    match k
    case Output => "output"
    case UserInput => "userInput"
  }

  /**
   * A recorded `Date`, kept only as the two renderings the terminal uses:
   * `toTimeString().substring(0, 8)` (`clock`, "HH:MM:SS") and `toISOString()` (`iso`).
   */
  datatype Stamp = Stamp(clock: string, iso: string)

  /** One history entry: `{ type, value, time }`. */
  datatype Entry = Entry(kind: Kind, value: string, time: Stamp)

  /** `MAX_HISTORY_LENGTH`. */
  const MaxHistoryLength: nat := 1000

  /**
   * `combined.length > MAX_HISTORY_LENGTH ? combined.slice(-MAX_HISTORY_LENGTH) : combined`:
   * the newest `min(MaxHistoryLength, |h|)` entries of `h`, in order.
   */
  function Capped(h: seq<Entry>): (r: seq<Entry>)
    ensures |r| <= MaxHistoryLength
    ensures |r| == if |h| <= MaxHistoryLength then |h| else MaxHistoryLength
    ensures r == h[|h| - |r|..]
  {
    if |h| > MaxHistoryLength then h[|h| - MaxHistoryLength..] else h
  }

  /**
   * Capping after an append keeps everything while the total fits, and
   * otherwise evicts exactly the oldest entries: the result is the newest
   * `MaxHistoryLength` entries of `old ++ new`, and every entry of `new` that
   * fits is among them.
   */
  lemma AppendCapped(current: seq<Entry>, added: seq<Entry>)
    requires |current| <= MaxHistoryLength
    ensures |current + added| <= MaxHistoryLength ==> Capped(current + added) == current + added
    ensures |added| <= MaxHistoryLength ==> Capped(current + added)[|Capped(current + added)| - |added|..] == added
    ensures |current + added| > MaxHistoryLength ==> |Capped(current + added)| == MaxHistoryLength
  {
    var all := current + added;
    var r := Capped(all);
    if |added| <= MaxHistoryLength {
      assert r[|r| - |added|..] == all[|all| - |added|..];
      assert all[|all| - |added|..] == added;
    }
  }
}
