/**
 * Global keyboard shortcuts: while enabled and given a non-empty list, every
 * key press is checked against every shortcut; each one whose key matches
 * (ignoring case) and whose Ctrl, Shift and Alt flags match the event exactly
 * fires, in list order, and the browser's default action is suppressed once
 * per firing. The Meta key plays no part.
 */
module Shortcuts {
  import opened Common

  /** `{ key, ctrl, shift, alt, callback }`; the callback is identified by the shortcut's position. */
  datatype Shortcut = Shortcut(key: string, ctrl: bool, shift: bool, alt: bool)

  /** The fields of a `keydown` event the matcher reads, and `metaKey`, which it does not. */
  datatype KeyEvent = KeyEvent(key: string, ctrlKey: bool, shiftKey: bool, altKey: bool, metaKey: bool)

  /** A required modifier must be held; one not required must not be. */
  predicate ModifierMatches(required: bool, held: bool)
  {
    if required then held else !held
  }

  /** The match rule of `handleKeyDown`. */
  predicate Matches(s: Shortcut, e: KeyEvent)
  {
    SameIgnoringCase(e.key, s.key)
    && ModifierMatches(s.ctrl, e.ctrlKey)
    && ModifierMatches(s.shift, e.shiftKey)
    && ModifierMatches(s.alt, e.altKey)
  }

  /**
   * The modifiers must match exactly: a shortcut fires only when each of
   * Ctrl, Shift and Alt is held precisely when the shortcut asks for it.
   */
  lemma MatchesExactly(s: Shortcut, e: KeyEvent)
    ensures Matches(s, e) <==>
              LowerStr(e.key) == LowerStr(s.key) && e.ctrlKey == s.ctrl && e.shiftKey == s.shift && e.altKey == s.alt
  {
  }

  /** Holding or releasing Meta never changes whether a shortcut matches. */
  lemma MetaIgnored(s: Shortcut, e: KeyEvent, meta: bool)
    ensures Matches(s, e.(metaKey := meta)) <==> Matches(s, e)
  {
  }

  /** Two events whose keys differ only in ASCII case, with the same modifiers, match the same shortcuts. */
  lemma CaseIgnored(s: Shortcut, e: KeyEvent, key: string)
    requires SameIgnoringCase(key, e.key)
    ensures Matches(s, e.(key := key)) <==> Matches(s, e)
  {
  }

  /** The positions of the shortcuts that fire for `e`, in list order. */
  function Firing(shortcuts: seq<Shortcut>, e: KeyEvent): (r: seq<nat>)
    ensures |r| <= |shortcuts|
    decreases |shortcuts|
  {
    if |shortcuts| == 0 then []
    else
      var n := |shortcuts| - 1;
      Firing(shortcuts[..n], e) + (if Matches(shortcuts[n], e) then [n] else [])
  }

  /** Strictly increasing positions below `n`. */
  predicate Ascending(r: seq<nat>, n: nat)
  {
    (forall k :: 0 <= k < |r| ==> r[k] < n)
    && (forall k, l :: 0 <= k < l < |r| ==> r[k] < r[l])
  }

  /**
   * Every matching shortcut fires and no other, each once and in list
   * order: there is no stop at the first match.
   */
  lemma {:induction false} FiringExactlyMatches(shortcuts: seq<Shortcut>, e: KeyEvent)
    ensures Ascending(Firing(shortcuts, e), |shortcuts|)
    ensures forall i: nat :: i in Firing(shortcuts, e) <==> i < |shortcuts| && Matches(shortcuts[i], e)
    decreases |shortcuts|
  {
    if |shortcuts| > 0 {
      var n := |shortcuts| - 1;
      FiringExactlyMatches(shortcuts[..n], e);
      var before := Firing(shortcuts[..n], e);
      var last: seq<nat> := if Matches(shortcuts[n], e) then [n] else [];
      assert Firing(shortcuts, e) == before + last;
      forall i: nat
        ensures i in before + last <==> i < |shortcuts| && Matches(shortcuts[i], e)
      {
        if i < n {
          assert shortcuts[..n][i] == shortcuts[i];
        }
      }
    }
  }

  /** Firing for one more shortcut: the earlier firings, then this one if it matches. */
  lemma FiringSnoc(shortcuts: seq<Shortcut>, i: nat, e: KeyEvent)
    requires i < |shortcuts|
    ensures Firing(shortcuts[..i + 1], e) == Firing(shortcuts[..i], e) + (if Matches(shortcuts[i], e) then [i] else [])
  {
    assert shortcuts[..i + 1][..i] == shortcuts[..i];
  }

  /**
   * `handleKeyDown`: the `forEach` over the shortcuts. Each match calls
   * `preventDefault` and then the shortcut's callback; `fired` lists the
   * callbacks called, in order.
   */
  method HandleKeyDown(shortcuts: seq<Shortcut>, e: KeyEvent) returns (preventDefaultCalls: nat, fired: seq<nat>)
    ensures fired == Firing(shortcuts, e)
    ensures preventDefaultCalls == |fired|
  {
    preventDefaultCalls := 0;
    fired := [];
    for i := 0 to |shortcuts|
      invariant fired == Firing(shortcuts[..i], e)
      invariant preventDefaultCalls == |fired|
    {
      var shortcut := shortcuts[i];
      var matchesKey := LowerStr(e.key) == LowerStr(shortcut.key);
      var matchesCtrl := if shortcut.ctrl then e.ctrlKey else !e.ctrlKey;
      var matchesShift := if shortcut.shift then e.shiftKey else !e.shiftKey;
      var matchesAlt := if shortcut.alt then e.altKey else !e.altKey;
      if matchesKey && matchesCtrl && matchesShift && matchesAlt {
        preventDefaultCalls := preventDefaultCalls + 1;
        fired := fired + [i];
      }
      FiringSnoc(shortcuts, i, e);
    }
    assert shortcuts[..|shortcuts|] == shortcuts;
  }

  /**
   * `useKeyboardShortcuts(shortcuts, enabled)` for one key press: when
   * disabled, or with a missing or empty list, no listener is installed and
   * nothing happens; otherwise the listener runs.
   */
  method Dispatch(shortcuts: Option<seq<Shortcut>>, enabled: bool, e: KeyEvent) returns (preventDefaultCalls: nat, fired: seq<nat>)
    ensures !enabled || shortcuts == None || shortcuts == Some([]) ==> preventDefaultCalls == 0 && fired == []
    ensures enabled && shortcuts.Some? ==> fired == Firing(shortcuts.value, e)
    ensures preventDefaultCalls > 0 <==> |fired| > 0
  {
    if !enabled || shortcuts == None || |shortcuts.value| == 0 {
      return 0, [];
    }
    preventDefaultCalls, fired := HandleKeyDown(shortcuts.value, e);
  }
}
