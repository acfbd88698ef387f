/**
 * The cookie helpers that persist the user's preferences: `setCookie` writes
 * `name=value` with a one-year expiry, the root path and `SameSite=Strict`;
 * `getCookie` looks a name up in the (already URI-decoded) cookie string.
 */
module Cookie {
  import opened Common

  // ---------------------------------------------------------------------------
  // getCookie

  /** `c.indexOf(prefix) === 0` */
  predicate StartsWith(c: string, prefix: string)
  {
    |prefix| <= |c| && c[..|prefix|] == prefix
  }

  /** A piece with its leading spaces removed, as the inner `while` of `getCookie` leaves it. */
  function TrimLeft(c: string): (r: string)
    ensures |r| <= |c| && r == c[|c| - |r|..]
    ensures |r| > 0 ==> r[0] != ' '
    decreases |c|
  {
    if |c| > 0 && c[0] == ' ' then TrimLeft(c[1..]) else c
  }

  /** Only spaces are removed: everything before the trimmed piece is a space. */
  lemma {:induction false} TrimLeftSpaces(c: string)
    ensures forall k :: 0 <= k < |c| - |TrimLeft(c)| ==> c[k] == ' '
    decreases |c|
  {
    if |c| > 0 && c[0] == ' ' {
      TrimLeftSpaces(c[1..]);
    }
  }

  /** Trimming a run of spaces in front of a piece that does not start with one gives the piece. */
  lemma {:induction false} TrimLeftPadded(spaces: nat, x: string)
    requires |x| == 0 || x[0] != ' '
    ensures TrimLeft(seq(spaces, _ => ' ') + x) == x
    decreases spaces
  {
    if spaces > 0 {
      var padded := seq(spaces, _ => ' ') + x;
      assert padded[1..] == seq(spaces - 1, _ => ' ') + x;
      TrimLeftPadded(spaces - 1, x);
    } else {
      assert seq(spaces, _ => ' ') + x == x;
    }
  }

  /**
   * The value of the first piece that, once trimmed, starts with `name=`:
   * the rest of that piece; `''` when there is none.
   */
  function Lookup(pieces: seq<string>, cname: string): (r: string)
    decreases |pieces|
  {
    if |pieces| == 0 then ""
    else
      var c := TrimLeft(pieces[0]);
      if StartsWith(c, cname + "=") then c[|cname| + 1..] else Lookup(pieces[1..], cname)
  }

  /** The piece `name=` is looked for in. */
  predicate Holds(piece: string, cname: string)
  {
    StartsWith(TrimLeft(piece), cname + "=")
  }

  /**
   * The first piece holding `name=` decides: the result is what follows
   * `name=` in it, verbatim (trailing spaces included).
   */
  lemma {:induction false} LookupFirst(pieces: seq<string>, cname: string, i: nat)
    requires i < |pieces| && Holds(pieces[i], cname)
    requires forall j :: 0 <= j < i ==> !Holds(pieces[j], cname)
    ensures Lookup(pieces, cname) == TrimLeft(pieces[i])[|cname| + 1..]
    decreases i
  {
    if i > 0 {
      LookupFirst(pieces[1..], cname, i - 1);
    }
  }

  /** With no piece holding `name=`, the result is `''`. */
  lemma {:induction false} LookupAbsent(pieces: seq<string>, cname: string)
    requires forall j :: 0 <= j < |pieces| ==> !Holds(pieces[j], cname)
    ensures Lookup(pieces, cname) == ""
    decreases |pieces|
  {
    if |pieces| > 0 {
      LookupAbsent(pieces[1..], cname);
    }
  }

  /** A value found comes out of one piece, so it never holds the separator the pieces were cut at. */
  lemma {:induction false} LookupWithin(pieces: seq<string>, cname: string, sep: char)
    requires forall j :: 0 <= j < |pieces| ==> sep !in pieces[j]
    ensures sep !in Lookup(pieces, cname)
    decreases |pieces|
  {
    if |pieces| > 0 {
      var c := TrimLeft(pieces[0]);
      if StartsWith(c, cname + "=") {
        var r := c[|cname| + 1..];
        assert forall x :: x in r ==> x in pieces[0];
      } else {
        LookupWithin(pieces[1..], cname, sep);
      }
    }
  }

  /** `getCookie(cname)` on the decoded cookie string, as a value. */
  function GetCookieValue(decodedCookie: string, cname: string): (r: string)
    ensures ';' !in r
  {
    var pieces := Split(decodedCookie, ';');
    LookupWithin(pieces, cname, ';');
    Lookup(pieces, cname)
  }

  /**
   * `getCookie` as the code runs it: split at `;`, then for each piece strip
   * the leading spaces one at a time and return what follows `name=` in the
   * first piece that starts with it.
   */
  method GetCookie(decodedCookie: string, cname: string) returns (value: string)
    ensures value == GetCookieValue(decodedCookie, cname)
  {
    var name := cname + "=";
    var ca := Split(decodedCookie, ';');
    for i := 0 to |ca|
      invariant Lookup(ca[i..], cname) == Lookup(ca, cname)
    {
      var c := ca[i];
      while |c| > 0 && c[0] == ' '
        invariant TrimLeft(c) == TrimLeft(ca[i])
        decreases |c|
      {
        c := c[1..];
      }
      assert ca[i..][1..] == ca[i + 1..];
      if |name| <= |c| && c[..|name|] == name {
        return c[|name|..];
      }
    }
    return "";
  }

  // ---------------------------------------------------------------------------
  // setCookie

  /** `365 * 24 * 60 * 60 * 1000`: one year in milliseconds. */
  const LifetimeMs: int := 365 * 24 * 60 * 60 * 1000

  /** The string `setCookie` assigns to `document.cookie`. */
  function CookieLine(cname: string, cvalue: string, expires: string): string
  {
    cname + "=" + cvalue + ";expires=" + expires + ";path=/;SameSite=Strict;"
  }

  /**
   * `setCookie(cname, cvalue)` at the time `nowMs`: move the date a year
   * ahead, format it with `toUTCString` (given, as the browser's), and build
   * the cookie string. The value is written as is, without encoding.
   */
  method SetCookie(cname: string, cvalue: string, nowMs: int, toUTCString: int -> string) returns (cookie: string)
    ensures cookie == CookieLine(cname, cvalue, toUTCString(nowMs + LifetimeMs))
  {
    var days := 365;
    var d := nowMs;
    d := d + days * 24 * 60 * 60 * 1000;
    var expires := toUTCString(d);
    cookie := cname + "=" + cvalue + ";expires=" + expires + ";path=/;SameSite=Strict;";
  }

  /** A `name=value` piece whose name does not start with a space holds `name=` and yields `value`. */
  lemma PairPiece(cname: string, cvalue: string)
    requires |cname| == 0 || cname[0] != ' '
    ensures TrimLeft(cname + "=" + cvalue) == cname + "=" + cvalue
    ensures Holds(cname + "=" + cvalue, cname)
    ensures (cname + "=" + cvalue)[|cname| + 1..] == cvalue
  {
    var x := cname + "=" + cvalue;
    assert x[0] != ' ' by {
      if |cname| == 0 { assert x[0] == '='; } else { assert x[0] == cname[0]; }
    }
    assert x[..|cname + "="|] == cname + "=";
  }

  /**
   * Reading back what `setCookie` wrote finds the value again, as long as
   * neither the name nor the value holds `;` (the value is not encoded) and
   * the name does not start with a space.
   */
  lemma SetThenGet(cname: string, cvalue: string, expires: string)
    requires ';' !in cname && ';' !in cvalue
    requires |cname| == 0 || cname[0] != ' '
    ensures GetCookieValue(CookieLine(cname, cvalue, expires), cname) == cvalue
  {
    var first := cname + "=" + cvalue;
    var after := "expires=" + expires + ";path=/;SameSite=Strict;";
    assert CookieLine(cname, cvalue, expires) == first + [';'] + after;
    assert ';' !in first;
    SplitAt(first, after, ';');
    PairPiece(cname, cvalue);
    LookupFirst([first] + Split(after, ';'), cname, 0);
  }

  /** Splitting at the first separator: the text before it is the first piece. */
  lemma {:induction false} SplitAt(first: string, after: string, sep: char)
    requires sep !in first
    ensures Split(first + [sep] + after, sep) == [first] + Split(after, sep)
    decreases |first|
  {
    if |first| == 0 {
      assert first + [sep] + after == [sep] + after;
      assert ([sep] + after)[1..] == after;
    } else {
      assert sep !in first[1..] by { assert forall x :: x in first[1..] ==> x in first; }
      SplitAt(first[1..], after, sep);
      assert (first + [sep] + after)[1..] == first[1..] + [sep] + after;
      assert [first[0]] + first[1..] == first;
    }
  }

  // ---------------------------------------------------------------------------
  // The browser's cookie string

  /**
   * What `document.cookie` reads as for the stored pairs, in order: `k=v`
   * pieces separated by `; `.
   */
  function Jar(pairs: seq<(string, string)>): string
  {
    Join(JarPieces(pairs), ';')
  }

  function JarPieces(pairs: seq<(string, string)>): (r: seq<string>)
    ensures |r| == |pairs|
  {
    seq(|pairs|, i requires 0 <= i < |pairs| => (if i == 0 then "" else " ") + pairs[i].0 + "=" + pairs[i].1)
  }

  /** Names and values as the browser stores them: no `;`, no `=` in names, no leading space in names. */
  predicate WellFormedPairs(pairs: seq<(string, string)>)
  {
    forall i :: 0 <= i < |pairs| ==>
      ';' !in pairs[i].0 && ';' !in pairs[i].1 && '=' !in pairs[i].0 && (|pairs[i].0| == 0 || pairs[i].0[0] != ' ')
  }

  /** A piece of the jar, trimmed, is its `name=value`. */
  lemma JarPieceTrimmed(pairs: seq<(string, string)>, i: nat)
    requires WellFormedPairs(pairs) && i < |pairs|
    ensures TrimLeft(JarPieces(pairs)[i]) == pairs[i].0 + "=" + pairs[i].1
  {
    var x := pairs[i].0 + "=" + pairs[i].1;
    PairPiece(pairs[i].0, pairs[i].1);
    var pad := if i == 0 then 0 else 1;
    assert x[0] != ' ';
    TrimLeftPadded(pad, x);
    assert seq(pad, _ => ' ') + x == JarPieces(pairs)[i];
  }

  /** Names of different lengths never match: where the shorter one ends, one side has `=` and the other not. */
  lemma LengthsDiffer(k: string, v: string, cname: string)
    requires '=' !in k && '=' !in cname && |k| != |cname|
    ensures !StartsWith(k + "=" + v, cname + "=")
  {
    var x := k + "=" + v;
    var key := cname + "=";
    if |key| <= |x| {
      if |k| < |cname| {
        assert x[|k|] == '=';
        assert key[|k|] == cname[|k|] && cname[|k|] in cname;
        assert x[..|key|][|k|] != key[|k|];
      } else {
        assert x[|cname|] == k[|cname|] && k[|cname|] in k;
        assert key[|cname|] == '=';
        assert x[..|key|][|cname|] != key[|cname|];
      }
    }
  }

  /** With no `=` in either name, `k=v` starts with `name=` exactly when `k` is `name`. */
  lemma NameMatch(k: string, v: string, cname: string)
    requires '=' !in k && '=' !in cname
    ensures StartsWith(k + "=" + v, cname + "=") <==> k == cname
  {
    var x := k + "=" + v;
    var key := cname + "=";
    if |k| != |cname| {
      LengthsDiffer(k, v, cname);
    } else if StartsWith(x, key) {
      assert k == x[..|k|];
      assert cname == key[..|k|];
    }
    if k == cname {
      assert x[..|key|] == key;
    }
  }

  /** The browser's cookie string splits at `;` into its pieces. */
  lemma JarSplit(pairs: seq<(string, string)>)
    requires |pairs| >= 1 && WellFormedPairs(pairs)
    ensures Split(Jar(pairs), ';') == JarPieces(pairs)
  {
    var pieces := JarPieces(pairs);
    forall i | 0 <= i < |pieces|
      ensures ';' !in pieces[i]
    {
      assert pieces[i] == (if i == 0 then "" else " ") + pairs[i].0 + "=" + pairs[i].1;
    }
    SplitJoin(pieces, ';');
  }

  /** A piece of the jar holds `name=` exactly when its name is `name`. */
  lemma JarPieceHolds(pairs: seq<(string, string)>, i: nat, cname: string)
    requires WellFormedPairs(pairs) && i < |pairs| && '=' !in cname
    ensures Holds(JarPieces(pairs)[i], cname) <==> pairs[i].0 == cname
  {
    JarPieceTrimmed(pairs, i);
    NameMatch(pairs[i].0, pairs[i].1, cname);
  }

  /** The empty cookie string (nothing stored yet) has one empty piece, which holds no name. */
  lemma EmptyJarLookup(cname: string)
    ensures GetCookieValue(Jar([]), cname) == ""
  {
    assert Jar([]) == "";
    assert Split("", ';') == [""];
    assert TrimLeft("") == "";
    assert !StartsWith("", cname + "=");
    assert Lookup([""], cname) == Lookup([""][1..], cname);
  }

  /**
   * Looking up a name no pair has gives `''`, also in the empty cookie
   * string: names that merely contain or extend it never match.
   */
  lemma JarLookupAbsent(pairs: seq<(string, string)>, cname: string)
    requires WellFormedPairs(pairs) && '=' !in cname
    requires forall i :: 0 <= i < |pairs| ==> pairs[i].0 != cname
    ensures GetCookieValue(Jar(pairs), cname) == ""
  {
    if |pairs| == 0 {
      EmptyJarLookup(cname);
      return;
    }
    JarSplit(pairs);
    var pieces := JarPieces(pairs);
    forall j | 0 <= j < |pieces|
      ensures !Holds(pieces[j], cname)
    {
      JarPieceHolds(pairs, j, cname);
    }
    LookupAbsent(pieces, cname);
  }

  /** Looking up a name gives the value of the first pair with that name. */
  lemma JarLookupFirst(pairs: seq<(string, string)>, cname: string, i: nat)
    requires WellFormedPairs(pairs) && '=' !in cname
    requires i < |pairs| && pairs[i].0 == cname
    requires forall j :: 0 <= j < i ==> pairs[j].0 != cname
    ensures GetCookieValue(Jar(pairs), cname) == pairs[i].1
  {
    JarSplit(pairs);
    var pieces := JarPieces(pairs);
    forall j | 0 <= j < i
      ensures !Holds(pieces[j], cname)
    {
      JarPieceHolds(pairs, j, cname);
    }
    JarPieceHolds(pairs, i, cname);
    JarPieceTrimmed(pairs, i);
    LookupFirst(pieces, cname, i);
    PairPiece(cname, pairs[i].1);
  }
}
