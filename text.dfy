/** String operations of Python's `str` that the command path relies on:
    `in` (substring test), `replace(old, new, 1)`, `startswith`, `strip()` and
    `lower()`. Strings are sequences of Unicode scalar values, as in Python 3. */
module Text {

  datatype Option<T> = None | Some(value: T)

  /** The characters for which Python's `str.isspace()` holds; `str.strip()`
      removes exactly these, and `\s` in a `str` regular expression matches them. */
  predicate IsSpace(c: char) {
    || ('\t' <= c <= '\r')
    || ('\U{1C}' <= c <= '\U{1F}')
    || c == ' ' || c == '\U{85}' || c == '\U{A0}' || c == '\U{1680}'
    || ('\U{2000}' <= c <= '\U{200A}')
    || c == '\U{2028}' || c == '\U{2029}' || c == '\U{202F}' || c == '\U{205F}' || c == '\U{3000}'
  }

  predicate AllSpace(s: string) {
    forall k :: 0 <= k < |s| ==> IsSpace(s[k])
  }

  /** `s.startswith(p)` */
  predicate IsPrefix(p: string, s: string) {
    |p| <= |s| && s[..|p|] == p
  }

  lemma PrefixOfConcat(p: string, t: string)
    ensures IsPrefix(p, p + t) && (p + t)[|p|..] == t
  {
    assert (p + t)[..|p|] == p;
  }

  /** `t` occurs in `s` starting at index `i`. */
  predicate OccursAt(s: string, t: string, i: int) {
    0 <= i && i + |t| <= |s| && s[i..i + |t|] == t
  }

  /** Python's `t in s` for strings. */
  predicate Contains(s: string, t: string) {
    exists i | 0 <= i <= |s| - |t| :: OccursAt(s, t, i)
  }

  /** The leftmost occurrence of `t` in `s` at or after `from`. */
  function FindFrom(s: string, t: string, from: nat): (r: Option<nat>)
    decreases |s| - from
    ensures r.Some? ==> from <= r.value && OccursAt(s, t, r.value)
    ensures r.Some? ==> forall j :: from <= j < r.value ==> !OccursAt(s, t, j)
    ensures r.None? ==> forall j :: from <= j ==> !OccursAt(s, t, j)
  {
    if from + |t| > |s| then None
    else if s[from..from + |t|] == t then Some(from)
    else FindFrom(s, t, from + 1)
  }

  /** `s.find(t)`, with `None` for -1. */
  function FirstIndex(s: string, t: string): (r: Option<nat>)
    ensures r.Some? ==> OccursAt(s, t, r.value) && forall j :: 0 <= j < r.value ==> !OccursAt(s, t, j)
    ensures r.None? <==> !Contains(s, t)
  {
    FindFrom(s, t, 0)
  }

  /** `s.replace(pattern, replacement, 1)` for a non-empty `pattern`: the leftmost occurrence
      of `pattern` is replaced by `replacement`, and `s` is returned unchanged when there is none. */
  function ReplaceFirst(s: string, pattern: string, replacement: string): (r: string)
    ensures !Contains(s, pattern) ==> r == s
    ensures Contains(s, pattern) ==>
              exists i :: && OccursAt(s, pattern, i)
                          && (forall j :: 0 <= j < i ==> !OccursAt(s, pattern, j))
                          && r == s[..i] + replacement + s[i + |pattern|..]
  {
    match FirstIndex(s, pattern)
    case None => s
    case Some(i) => s[..i] + replacement + s[i + |pattern|..]
  }

  /** `s.lstrip()` */
  function TrimStart(s: string): (r: string)
    ensures |r| <= |s|
    ensures r != [] ==> !IsSpace(r[0])
  {
    if s != [] && IsSpace(s[0]) then TrimStart(s[1..]) else s
  }

  /** `s.rstrip()` */
  function TrimEnd(s: string): (r: string)
    ensures |r| <= |s|
    ensures r != [] ==> !IsSpace(r[|r| - 1])
  {
    if s != [] && IsSpace(s[|s| - 1]) then TrimEnd(s[..|s| - 1]) else s
  }

  /** `lstrip()` drops a blank prefix and keeps the rest as it is. */
  lemma {:induction false} TrimStartDropsBlankPrefix(s: string)
    ensures var r := TrimStart(s);
            r == s[|s| - |r|..] && AllSpace(s[..|s| - |r|])
  {
    if s != [] && IsSpace(s[0]) {
      var t := s[1..];
      TrimStartDropsBlankPrefix(t);
      var r := TrimStart(t);
      assert TrimStart(s) == r;
      assert t[|t| - |r|..] == s[|s| - |r|..];
      var blank := s[..|s| - |r|];
      forall k | 0 <= k < |blank|
        ensures IsSpace(blank[k])
      {
        if k > 0 {
          assert blank[k] == t[..|t| - |r|][k - 1];
        }
      }
    } else {
      assert s[..0] == [];
    }
  }

  /** `rstrip()` drops a blank suffix and keeps the rest as it is. */
  lemma {:induction false} TrimEndDropsBlankSuffix(s: string)
    ensures var r := TrimEnd(s);
            r == s[..|r|] && AllSpace(s[|r|..])
  {
    if s != [] && IsSpace(s[|s| - 1]) {
      var t := s[..|s| - 1];
      TrimEndDropsBlankSuffix(t);
      var r := TrimEnd(t);
      assert TrimEnd(s) == r;
      assert t[..|r|] == s[..|r|];
      var blank := s[|r|..];
      forall k | 0 <= k < |blank|
        ensures IsSpace(blank[k])
      {
        if k < |t| - |r| {
          assert blank[k] == t[|r|..][k];
        }
      }
    } else {
      assert s[|s|..] == [];
    }
  }

  /** `s.strip()` */
  function Strip(s: string): string {
    TrimEnd(TrimStart(s))
  }

  /** `strip()` removes only surrounding white space and leaves neither end
      of its result blank. */
  lemma StripShape(s: string)
    ensures var r := Strip(s);
            && (r != [] ==> !IsSpace(r[0]) && !IsSpace(r[|r| - 1]))
            && exists i :: 0 <= i <= |s| - |r| && r == s[i..i + |r|]
                           && AllSpace(s[..i]) && AllSpace(s[i + |r|..])
  {
    var u := TrimStart(s);
    var r := TrimEnd(u);
    var i := |s| - |u|;
    TrimStartDropsBlankPrefix(s);
    TrimEndDropsBlankSuffix(u);
    assert r == s[i..i + |r|];
    assert s[i + |r|..] == u[|r|..];
  }

  lemma {:induction false} TrimStartOfSpaces(ws: string, x: string)
    requires AllSpace(ws)
    ensures TrimStart(ws + x) == TrimStart(x)
  {
    if ws != [] {
      assert (ws + x)[1..] == ws[1..] + x;
      TrimStartOfSpaces(ws[1..], x);
    } else {
      assert ws + x == x;
    }
  }

  lemma {:induction false} TrimEndOfSpaces(x: string, ws: string)
    requires AllSpace(ws)
    ensures TrimEnd(x + ws) == TrimEnd(x)
  {
    if ws != [] {
      var w' := ws[..|ws| - 1];
      assert (x + ws)[..|x + ws| - 1] == x + w';
      TrimEndOfSpaces(x, w');
    } else {
      assert x + ws == x;
    }
  }

  lemma {:induction false} TrimStartThenSpaces(s: string, ws: string)
    requires AllSpace(ws)
    ensures TrimStart(s) != [] ==> TrimStart(s + ws) == TrimStart(s) + ws
    ensures TrimStart(s) == [] ==> TrimStart(s + ws) == []
  {
    if s == [] {
      assert s + ws == ws;
      TrimStartOfSpaces(ws, []);
      assert ws + [] == ws;
    } else if IsSpace(s[0]) {
      assert (s + ws)[1..] == s[1..] + ws;
      TrimStartThenSpaces(s[1..], ws);
    }
  }

  /** `lstrip()` stops at the first character that is not white space, so
      what follows it is kept as it is. */
  lemma {:induction false} TrimStartAppend(s: string, t: string)
    requires TrimStart(s) != []
    ensures TrimStart(s + t) == TrimStart(s) + t
  {
    if IsSpace(s[0]) {
      assert (s + t)[1..] == s[1..] + t;
      TrimStartAppend(s[1..], t);
    }
  }

  /** `lstrip()` keeps only characters of its argument. */
  lemma TrimStartKeeps(s: string, c: char)
    requires c !in s
    ensures c !in TrimStart(s)
  {
    TrimStartDropsBlankPrefix(s);
  }

  lemma TrimStartEmpty(s: string)
    ensures TrimStart(s) == [] <==> AllSpace(s)
  {
    if TrimStart(s) == [] {
      TrimStartDropsBlankPrefix(s);
      assert s[..|s|] == s;
    }
    if AllSpace(s) {
      TrimStartOfSpaces(s, []);
      assert s + [] == s;
    }
  }

  /** A string that begins and ends with a character that is not white space
      is its own `strip()`. */
  lemma StripOfStripped(s: string)
    requires s != [] && !IsSpace(s[0]) && !IsSpace(s[|s| - 1])
    ensures Strip(s) == s
  {
  }

  /** `strip()` ignores any white space added around its argument; in particular
      it is idempotent. */
  lemma StripIgnoresSurroundingSpace(ws: string, s: string, ws': string)
    requires AllSpace(ws) && AllSpace(ws')
    ensures Strip(ws + s + ws') == Strip(s)
  {
    assert ws + s + ws' == ws + (s + ws');
    TrimStartOfSpaces(ws, s + ws');
    TrimStartThenSpaces(s, ws');
    if TrimStart(s) != [] {
      TrimEndOfSpaces(TrimStart(s), ws');
    }
  }

  lemma StripIdempotent(s: string)
    ensures Strip(Strip(s)) == Strip(s)
  {
    var r := Strip(s);
    StripShape(s);
    assert r == [] || !IsSpace(r[0]);
    assert TrimStart(r) == r;
    assert r == [] || !IsSpace(r[|r| - 1]);
  }

  function LowerChar(c: char): char {
    if 'A' <= c <= 'Z' then (c as int + 32) as char else c
  }

  /** `s.lower()` on the ASCII letters. */
  function AsciiLower(s: string): (r: string)
    ensures |r| == |s|
    ensures forall k :: 0 <= k < |s| ==> r[k] == LowerChar(s[k])
  {
    seq(|s|, k requires 0 <= k < |s| => LowerChar(s[k]))
  }

  /** `c` is `d`, or the upper-case form of the lower-case ASCII letter `d`. */
  predicate CaseVariant(c: char, d: char) {
    c == d || ('a' <= d <= 'z' && c as int == d as int - 32)
  }

  lemma LowerCharIs(c: char, d: char)
    requires !('A' <= d <= 'Z')
    ensures LowerChar(c) == d <==> CaseVariant(c, d)
  {
  }

  /** Lowering gives a word without upper-case letters exactly when the input
      spells that word letter by letter in either case: `EXIT`, `Exit` and
      `eXiT` all lower to `exit`, and nothing else does. */
  lemma AsciiLowerIs(s: string, w: string)
    requires forall k :: 0 <= k < |w| ==> !('A' <= w[k] <= 'Z')
    ensures AsciiLower(s) == w <==> |s| == |w| && forall k :: 0 <= k < |s| ==> CaseVariant(s[k], w[k])
  {
    if |s| == |w| {
      forall k | 0 <= k < |s|
        ensures AsciiLower(s)[k] == w[k] <==> CaseVariant(s[k], w[k])
      {
        LowerCharIs(s[k], w[k]);
      }
    }
  }
}
