/**
 * Python and JavaScript string operations the core relies on, over `seq<char>`:
 * whitespace splitting, single-character splitting and joining, stripping,
 * substring search and literal replacement.
 */
module Strings {
  import opened Wrappers

  /** The characters `str.isspace()` accepts, which `str.split()` and `str.strip()` use. */
  predicate IsSpace(c: char)
  {
    c == ' ' || ('\t' <= c <= '\r') || ('\U{001C}' <= c <= '\U{001F}')
    || c == '\U{0085}' || c == '\U{00A0}' || c == '\U{1680}' || ('\U{2000}' <= c <= '\U{200A}')
    || c == '\U{2028}' || c == '\U{2029}' || c == '\U{202F}' || c == '\U{205F}' || c == '\U{3000}'
  }

  /** A token `str.split()` can produce: non-empty and free of whitespace. */
  predicate IsWord(w: string)
  {
    w != [] && forall i :: 0 <= i < |w| ==> !IsSpace(w[i])
  }

  /** `str.split()` with `cur` the characters of the token being read. */
  function WordsFrom(s: string, cur: string): seq<string>
    decreases |s|
  {
    if s == [] then (if cur == [] then [] else [cur])
    else if IsSpace(s[0]) then (if cur == [] then [] else [cur]) + WordsFrom(s[1..], [])
    else WordsFrom(s[1..], cur + [s[0]])
  }

  /** `s.split()`: the maximal runs of non-whitespace characters, in order. */
  function Words(s: string): seq<string>
  {
    WordsFrom(s, [])
  }

  /** `" ".join(ws)`. */
  function JoinSpace(ws: seq<string>): string
  {
    if ws == [] then []
    else if |ws| == 1 then ws[0]
    else ws[0] + " " + JoinSpace(ws[1..])
  }

  lemma {:induction false} WordsFromAreWords(s: string, cur: string)
    requires cur == [] || IsWord(cur)
    ensures forall w <- WordsFrom(s, cur) :: IsWord(w)
    decreases |s|
  {
    if s != [] {
      if IsSpace(s[0]) {
        WordsFromAreWords(s[1..], []);
      } else {
        WordsFromAreWords(s[1..], cur + [s[0]]);
      }
    }
  }

  /** Every token of `s.split()` is non-empty and contains no whitespace. */
  lemma AllWords(s: string)
    ensures forall w <- Words(s) :: IsWord(w)
  {
    WordsFromAreWords(s, []);
  }

  /** Splitting distributes over a whitespace separator. */
  lemma {:induction false} WordsFromSeparated(a: string, sep: char, b: string, cur: string)
    requires IsSpace(sep)
    ensures WordsFrom(a + [sep] + b, cur) == WordsFrom(a, cur) + Words(b)
    decreases |a|
  {
    if a == [] {
      assert a + [sep] + b == [sep] + b;
      assert ([sep] + b)[1..] == b;
    } else {
      assert (a + [sep] + b)[0] == a[0];
      assert (a + [sep] + b)[1..] == a[1..] + [sep] + b;
      if IsSpace(a[0]) {
        WordsFromSeparated(a[1..], sep, b, []);
      } else {
        WordsFromSeparated(a[1..], sep, b, cur + [a[0]]);
      }
    }
  }

  lemma WordsSeparated(a: string, sep: char, b: string)
    requires IsSpace(sep)
    ensures Words(a + [sep] + b) == Words(a) + Words(b)
  {
    WordsFromSeparated(a, sep, b, []);
  }

  lemma {:induction false} WordsFromRun(w: string, rest: string, cur: string)
    requires forall i :: 0 <= i < |w| ==> !IsSpace(w[i])
    ensures WordsFrom(w + rest, cur) == WordsFrom(rest, cur + w)
    decreases |w|
  {
    if w == [] {
      assert w + rest == rest && cur + w == cur;
    } else {
      assert (w + rest)[0] == w[0];
      assert (w + rest)[1..] == w[1..] + rest;
      assert cur + [w[0]] + w[1..] == cur + w;
      WordsFromRun(w[1..], rest, cur + [w[0]]);
    }
  }

  lemma {:induction false} WordsFromJoin(ws: seq<string>, cur: string)
    requires ws != []
    requires forall w <- ws :: IsWord(w)
    ensures WordsFrom(JoinSpace(ws), cur) == [cur + ws[0]] + ws[1..]
    decreases |ws|
  {
    assert ws[0] in ws;
    if |ws| == 1 {
      WordsFromRun(ws[0], [], cur);
      assert ws[0] + [] == ws[0];
    } else {
      var rest := JoinSpace(ws[1..]);
      assert JoinSpace(ws) == ws[0] + (" " + rest);
      WordsFromRun(ws[0], " " + rest, cur);
      assert (" " + rest)[1..] == rest;
      WordsFromJoin(ws[1..], []);
      assert [] + ws[1..][0] == ws[1];
      assert [ws[1]] + ws[1..][1..] == ws[1..];
    }
  }

  /** Joining whitespace-free words with single spaces and splitting again gives the words back. */
  lemma WordsOfJoin(ws: seq<string>)
    requires forall w <- ws :: IsWord(w)
    ensures Words(JoinSpace(ws)) == ws
  {
    if ws != [] {
      WordsFromJoin(ws, []);
      assert [] + ws[0] == ws[0];
      assert [ws[0]] + ws[1..] == ws;
    }
  }

  /** Joining non-empty words yields the empty string only for no words. */
  lemma {:induction false} JoinSpaceEmpty(ws: seq<string>)
    requires forall w <- ws :: IsWord(w)
    ensures JoinSpace(ws) == [] <==> ws == []
  {
    if |ws| >= 1 {
      assert ws[0] in ws;
      if |ws| > 1 {
        assert |JoinSpace(ws)| >= |ws[0]|;
      }
    }
  }

  /** Words joined by single spaces never make a lone space. */
  lemma JoinSpaceNotBlank(ws: seq<string>)
    requires forall w <- ws :: IsWord(w)
    ensures JoinSpace(ws) != " "
  {
    if ws != [] {
      assert ws[0] in ws;
      assert JoinSpace(ws)[0] == ws[0][0];
    }
  }

  predicate StartsWith(s: string, prefix: string)
  {
    |prefix| <= |s| && s[..|prefix|] == prefix
  }

  /** `sub in s`. */
  predicate Contains(s: string, sub: string)
  {
    exists i :: 0 <= i <= |s| - |sub| && StartsWith(s[i..], sub)
  }

  /** `s.find(sub)` as an option: the first position where `sub` occurs. */
  function IndexOf(s: string, sub: string): (r: Option<nat>)
    ensures r.Some? ==> r.value + |sub| <= |s| && StartsWith(s[r.value..], sub)
    ensures r.Some? ==> forall i :: 0 <= i < r.value ==> !StartsWith(s[i..], sub)
    ensures r.None? <==> !Contains(s, sub)
    decreases |s|
  {
    if StartsWith(s, sub) then Some(0)
    else if s == [] then None
    else
      match IndexOf(s[1..], sub)
      case None =>
        assert forall i :: 1 <= i <= |s| - |sub| ==> s[i..] == s[1..][i - 1..];
        None
      case Some(k) =>
        assert forall i :: 1 <= i <= k ==> s[i..] == s[1..][i - 1..];
        assert s[k + 1..] == s[1..][k..];
        Some(k + 1)
  }

  /**
   * `re.sub(pat, rep, s)` for a pattern without metacharacters: every
   * non-overlapping occurrence of `pat`, scanning left to right, is replaced
   * and the replaced text is not scanned again.
   */
  function ReplaceAll(s: string, pat: string, rep: string): string
    requires pat != []
    decreases |s|
  {
    if s == [] then []
    else if StartsWith(s, pat) then rep + ReplaceAll(s[|pat|..], pat, rep)
    else [s[0]] + ReplaceAll(s[1..], pat, rep)
  }

  /** Replacing a pattern that does not occur changes nothing. */
  lemma {:induction false} ReplaceAbsent(s: string, pat: string, rep: string)
    requires pat != []
    requires !Contains(s, pat)
    ensures ReplaceAll(s, pat, rep) == s
    decreases |s|
  {
    if s != [] {
      assert !StartsWith(s[0..], pat);
      assert s[0..] == s;
      assert !Contains(s[1..], pat) by {
        forall i | 0 <= i <= |s[1..]| - |pat| ensures !StartsWith(s[1..][i..], pat) {
          assert s[1..][i..] == s[i + 1..];
        }
      }
      ReplaceAbsent(s[1..], pat, rep);
      assert s == [s[0]] + s[1..];
    }
  }

  /** `s.replace(old, new)` for one character: every `c` in `s` becomes `rep`. */
  function ReplaceChar(s: string, c: char, rep: string): (r: string)
    ensures c !in s ==> r == s
    ensures c !in rep ==> c !in r
  {
    if s == [] then []
    else (if s[0] == c then rep else [s[0]]) + ReplaceChar(s[1..], c, rep)
  }

  /** `s.split(c)`: the pieces between occurrences of `c`, empty pieces kept. */
  function SplitOn(s: string, c: char): (r: seq<string>)
    ensures |r| >= 1
    ensures forall piece <- r :: c !in piece
  {
    if s == [] then [[]]
    else
      var rest := SplitOn(s[1..], c);
      if s[0] == c then [[]] + rest else [[s[0]] + rest[0]] + rest[1..]
  }

  /** `c.join(parts)`. */
  function JoinOn(parts: seq<string>, c: char): string
  {
    if parts == [] then []
    else if |parts| == 1 then parts[0]
    else parts[0] + [c] + JoinOn(parts[1..], c)
  }

  /** Splitting and re-joining on the same character gives the string back. */
  lemma {:induction false} JoinSplit(s: string, c: char)
    ensures JoinOn(SplitOn(s, c), c) == s
  {
    if s != [] {
      JoinSplit(s[1..], c);
      var rest := SplitOn(s[1..], c);
      if s[0] == c {
        assert JoinOn([[]] + rest, c) == [] + [c] + JoinOn(rest, c);
      } else {
        var parts := [[s[0]] + rest[0]] + rest[1..];
        if |rest| == 1 {
          assert JoinOn(parts, c) == [s[0]] + rest[0];
        } else {
          assert parts[1..] == rest[1..];
          assert JoinOn(rest, c) == rest[0] + [c] + JoinOn(rest[1..], c);
        }
      }
    }
  }

  lemma {:induction false} SplitSeparated(p: string, c: char, t: string)
    requires c !in p
    ensures SplitOn(p + [c] + t, c) == [p] + SplitOn(t, c)
  {
    if p == [] {
      assert p + [c] + t == [c] + t;
      assert ([c] + t)[1..] == t;
    } else {
      var s := p + [c] + t;
      assert s[0] == p[0];
      assert s[1..] == p[1..] + [c] + t;
      assert p[0] != c by { assert p[0] in p; }
      assert c !in p[1..];
      SplitSeparated(p[1..], c, t);
      assert [p[0]] + p[1..] == p;
    }
  }

  /** Joining pieces free of `c` and splitting again gives the pieces back. */
  lemma {:induction false} SplitJoin(parts: seq<string>, c: char)
    requires parts != []
    requires forall p <- parts :: c !in p
    ensures SplitOn(JoinOn(parts, c), c) == parts
  {
    assert parts[0] in parts;
    if |parts| == 1 {
      SplitNoSep(parts[0], c);
    } else {
      assert forall p <- parts[1..] :: p in parts;
      SplitSeparated(parts[0], c, JoinOn(parts[1..], c));
      SplitJoin(parts[1..], c);
      assert [parts[0]] + parts[1..] == parts;
    }
  }

  lemma {:induction false} SplitNoSep(s: string, c: char)
    requires c !in s
    ensures SplitOn(s, c) == [s]
  {
    if s != [] {
      assert c !in s[1..];
      SplitNoSep(s[1..], c);
      assert [s[0]] + s[1..] == s;
    }
  }

  /** `s.lstrip()`. */
  function StripLeft(s: string): (r: string)
    ensures |r| <= |s| && r == s[|s| - |r|..]
    ensures r == [] || !IsSpace(r[0])
    ensures forall i :: 0 <= i < |s| - |r| ==> IsSpace(s[i])
  {
    if s == [] || !IsSpace(s[0]) then s else StripLeft(s[1..])
  }

  /** `s.rstrip()`. */
  function StripRight(s: string): (r: string)
    ensures |r| <= |s| && r == s[..|r|]
    ensures r == [] || !IsSpace(r[|r| - 1])
    ensures forall i :: |r| <= i < |s| ==> IsSpace(s[i])
  {
    if s == [] || !IsSpace(s[|s| - 1]) then s else StripRight(s[..|s| - 1])
  }

  /** `s.strip()`. */
  function Strip(s: string): string
  {
    StripRight(StripLeft(s))
  }

  /** Neither end of `s` is whitespace: what `s.strip()` always returns. */
  predicate IsStripped(s: string)
  {
    s == [] || (!IsSpace(s[0]) && !IsSpace(s[|s| - 1]))
  }

  lemma StripResult(s: string)
    ensures IsStripped(Strip(s))
    ensures Strip(s) == [] <==> forall i :: 0 <= i < |s| ==> IsSpace(s[i])
  {
    var l := StripLeft(s);
    var r := StripRight(l);
    assert r != [] ==> r[0] == l[0];
    assert l != [] ==> l[0] == s[|s| - |l|];
  }

  /** Stripping a string that is already stripped changes nothing. */
  lemma StripStripped(s: string)
    requires IsStripped(s)
    ensures Strip(s) == s
  {
  }

  /** `strip()` only cuts characters off the ends, so every character left was in `s`. */
  lemma StripIsSlice(s: string)
    ensures forall ch <- Strip(s) :: ch in s
  {
    var l := StripLeft(s);
    var r := StripRight(l);
    forall ch <- r
      ensures ch in s
    {
      var i :| 0 <= i < |r| && r[i] == ch;
      assert r[i] == l[i];
      assert l[i] == s[|s| - |l| + i];
    }
  }

  /** ASCII `lower()`. */
  function LowerChar(c: char): char
  {
    if 'A' <= c <= 'Z' then (c as int + 32) as char else c
  }

  function Lower(s: string): (r: string)
    ensures |r| == |s|
    ensures forall i :: 0 <= i < |s| ==> r[i] == LowerChar(s[i])
  {
    seq(|s|, i requires 0 <= i < |s| => LowerChar(s[i]))
  }
}
