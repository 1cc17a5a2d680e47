/**
  The parts of Python's `str` that the analysis pipeline and the search index rely on:
  whitespace stripping, case mapping, `split`/`join`/`splitlines`, `find`/`in`, and the
  slice `s[:k]`.

  Case mapping covers ASCII and the Latin-1 letters, including the two-letter capital of 'ß';
  whitespace is the Latin-1 part of `str.isspace`; lines are split on '\n' only.
*/
module Strings {

  // ---------------------------------------------------------------- whitespace

  /** `c.isspace()` restricted to Latin-1: \t \n \v \f \r, \x1c-\x1f, space, NEL, NBSP. */
  predicate IsSpace(c: char) {
    c == ' ' || ('\t' <= c <= '\r') || ('\U{1C}' <= c <= '\U{1F}') || c == '\U{85}' || c == '\U{A0}'
  }

  predicate AllSpace(s: string) {
    forall i :: 0 <= i < |s| ==> IsSpace(s[i])
  }

  /** `s.strip()`: drops whitespace from both ends, one character at a time. */
  function Strip(s: string): (r: string)
    ensures |r| <= |s|
    ensures r != [] ==> !IsSpace(r[0]) && !IsSpace(r[|r| - 1])
  {
    if s != [] && IsSpace(s[0]) then Strip(s[1..])
    else if s != [] && IsSpace(s[|s| - 1]) then Strip(s[..|s| - 1])
    else s
  }

  /** `strip()` removes a whitespace prefix and a whitespace suffix and nothing else; with the
      non-space ends of `Strip`'s own contract this leaves exactly one possible result. */
  /** `r` is `s` without a whitespace prefix of length `i` and a whitespace suffix from `j`. */
  ghost predicate TrimmedAt(s: string, r: string, i: int, j: int) {
    0 <= i <= j <= |s| && r == s[i..j] && AllSpace(s[..i]) && AllSpace(s[j..])
  }

  lemma {:induction false} StripTrims(s: string)
    ensures exists i, j :: TrimmedAt(s, Strip(s), i, j)
    decreases |s|
  {
    if s != [] && IsSpace(s[0]) {
      StripTrimsFront(s);
    } else if s != [] && IsSpace(s[|s| - 1]) {
      StripTrimsBack(s);
    } else {
      assert s[..0] == [] && s[|s|..] == [];
      assert TrimmedAt(s, Strip(s), 0, |s|);
    }
  }

  lemma {:induction false} StripTrimsFront(s: string)
    requires s != [] && IsSpace(s[0])
    ensures exists i, j :: TrimmedAt(s, Strip(s), i, j)
    decreases |s|, 0
  {
    var t := s[1..];
    StripTrims(t);
    var i, j :| TrimmedAt(t, Strip(t), i, j);
    assert s[..i + 1] == [s[0]] + t[..i];
    AllSpaceAppend([s[0]], t[..i]);
    assert t[i..j] == s[i + 1..j + 1] && t[j..] == s[j + 1..];
    assert TrimmedAt(s, Strip(s), i + 1, j + 1);
  }

  lemma {:induction false} StripTrimsBack(s: string)
    requires s != [] && !IsSpace(s[0]) && IsSpace(s[|s| - 1])
    ensures exists i, j :: TrimmedAt(s, Strip(s), i, j)
    decreases |s|, 0
  {
    var t := s[..|s| - 1];
    StripTrims(t);
    var i, j :| TrimmedAt(t, Strip(t), i, j);
    assert s[j..] == t[j..] + [s[|s| - 1]];
    AllSpaceAppend(t[j..], [s[|s| - 1]]);
    assert t[i..j] == s[i..j] && t[..i] == s[..i];
    assert TrimmedAt(s, Strip(s), i, j);
  }

  lemma AllSpaceAppend(a: string, b: string)
    requires AllSpace(a) && AllSpace(b)
    ensures AllSpace(a + b)
  {
    forall k | 0 <= k < |a + b| ensures IsSpace((a + b)[k]) {
      if k >= |a| {
        assert (a + b)[k] == b[k - |a|];
      }
    }
  }

  /** `strip()` leaves nothing exactly when the string is all whitespace. */
  lemma {:induction false} StripBlank(s: string)
    ensures Strip(s) == [] <==> AllSpace(s)
    decreases |s|
  {
    if s != [] && IsSpace(s[0]) {
      StripBlank(s[1..]);
      assert AllSpace(s) <==> AllSpace(s[1..]) by {
        if AllSpace(s[1..]) {
          forall i | 0 <= i < |s| ensures IsSpace(s[i]) {
            if i > 0 {
              assert s[i] == s[1..][i - 1];
            }
          }
        }
      }
    } else if s != [] && IsSpace(s[|s| - 1]) {
      StripBlank(s[..|s| - 1]);
      assert AllSpace(s) <==> AllSpace(s[..|s| - 1]) by {
        if AllSpace(s[..|s| - 1]) {
          forall i | 0 <= i < |s| ensures IsSpace(s[i]) {
            if i < |s| - 1 {
              assert s[i] == s[..|s| - 1][i];
            }
          }
        }
      }
    } else if s != [] {
      assert !IsSpace(s[0]);
    }
  }

  /** Whitespace appended to a string does not survive `strip()`. */
  lemma {:induction false} StripAppendSpace(x: string, c: char)
    requires IsSpace(c)
    ensures Strip(x + [c]) == Strip(x)
    decreases |x|
  {
    if x == [] {
      assert Strip([c]) == Strip([]);
    } else if IsSpace(x[0]) {
      assert (x + [c])[1..] == x[1..] + [c];
      StripAppendSpace(x[1..], c);
    } else {
      assert (x + [c])[..|x|] == x;
    }
  }

  // ---------------------------------------------------------------- case mapping

  /** `str.lower` on one character: ASCII and Latin-1 capitals move up by 32 (not U+00D7). */
  function LowerChar(c: char): char {
    if 'A' <= c <= 'Z' || ('\U{C0}' <= c <= '\U{DE}' && c != '\U{D7}') then (c as int + 32) as char else c
  }

  /** `str.upper` on one character: ASCII and Latin-1 small letters move down by 32 (not U+00F7);
      U+00FF and U+00B5 map to U+0178 and U+039C, as in Unicode. */
  function UpperChar(c: char): char {
    if 'a' <= c <= 'z' || ('\U{E0}' <= c <= '\U{FE}' && c != '\U{F7}') then (c as int - 32) as char
    else if c == '\U{FF}' then '\U{178}'
    else if c == '\U{B5}' then '\U{39C}'
    else c
  }

  function Lower(s: string): (r: string)
    ensures |r| == |s|
  {
    seq(|s|, i requires 0 <= i < |s| => LowerChar(s[i]))
  }

  /** `c.upper()` as a string: 'ß' (U+00DF) has the two-letter capital "SS". */
  function UpperString(c: char): (r: string)
    ensures |r| >= 1
  {
    if c == '\U{DF}' then "SS" else [UpperChar(c)]
  }

  function Upper(s: string): (r: string)
    ensures |r| >= |s|
  {
    if s == [] then [] else UpperString(s[0]) + Upper(s[1..])
  }

  /** Without 'ß', upper-casing maps each character on its own and keeps the length; 'ß'
      lengthens the text ("straße" gives "STRASSE"). */
  lemma {:induction false} UpperLength(s: string)
    ensures '\U{DF}' !in s ==> Upper(s) == seq(|s|, i requires 0 <= i < |s| => UpperChar(s[i]))
    ensures Upper("stra\U{DF}e") == "STRASSE"
    decreases |s|
  {
    if s != [] {
      UpperLength(s[1..]);
      if '\U{DF}' !in s {
        assert s[0] in s;
        assert forall c :: c in s[1..] ==> c in s;
      }
    }
  }

  /** An ASCII word upper-cases letter by letter: small letters move down by 32, capitals stay. */
  lemma UpperAscii(s: string, u: string)
    requires |u| == |s|
    requires forall i :: 0 <= i < |s| ==>
      || ('a' <= s[i] <= 'z' && u[i] == (s[i] as int - 32) as char)
      || ('A' <= s[i] <= 'Z' && u[i] == s[i])
    ensures Upper(s) == u
  {
    UpperLength(s);
    forall i | 0 <= i < |s| ensures UpperChar(s[i]) == u[i] && s[i] != '\U{DF}' {
      if 'a' <= s[i] <= 'z' {
        assert UpperChar(s[i]) == (s[i] as int - 32) as char;
      } else {
        assert UpperChar(s[i]) == s[i];
      }
    }
  }

  /** A word of ASCII capitals is its own upper case. */
  lemma UpperCapitals(s: string)
    requires forall i :: 0 <= i < |s| ==> 'A' <= s[i] <= 'Z'
    ensures Upper(s) == s
  {
    UpperAscii(s, s);
  }

  lemma LowerIsIdempotent(s: string)
    ensures Lower(Lower(s)) == Lower(s)
  {
  }

  // ---------------------------------------------------------------- split / join / splitlines

  /** `s.split(sep)` for a one-character separator: always at least one piece. */
  function Split(s: string, sep: char): (r: seq<string>)
    ensures |r| >= 1
    ensures forall p :: p in r ==> sep !in p
    decreases |s|
  {
    if s == [] then [[]]
    else
      var rest := Split(s[1..], sep);
      if s[0] == sep then [[]] + rest else [[s[0]] + rest[0]] + rest[1..]
  }

  /** `sep.join(parts)`. */
  function Join(sep: string, parts: seq<string>): string
    decreases |parts|
  {
    if parts == [] then []
    else if |parts| == 1 then parts[0]
    else parts[0] + sep + Join(sep, parts[1..])
  }

  lemma {:induction false} JoinSnoc(sep: string, parts: seq<string>, x: string)
    requires parts != []
    ensures Join(sep, parts + [x]) == Join(sep, parts) + sep + x
    decreases |parts|
  {
    if |parts| == 1 {
      assert (parts + [x])[1..] == [x];
    } else {
      assert (parts + [x])[1..] == parts[1..] + [x];
      JoinSnoc(sep, parts[1..], x);
    }
  }

  /** Splitting and joining back with the same separator gives the original string. */
  lemma {:induction false} SplitJoin(s: string, sep: char)
    ensures Join([sep], Split(s, sep)) == s
    decreases |s|
  {
    if s != [] {
      var rest := Split(s[1..], sep);
      SplitJoin(s[1..], sep);
      if s[0] == sep {
        assert Join([sep], [[]] + rest) == [] + [sep] + Join([sep], rest);
      } else if |rest| == 1 {
        assert Join([sep], [[s[0]] + rest[0]] + rest[1..]) == [s[0]] + rest[0];
      } else {
        var parts := [[s[0]] + rest[0]] + rest[1..];
        assert parts[1..] == rest[1..];
        assert Join([sep], rest) == rest[0] + [sep] + Join([sep], rest[1..]);
      }
    }
  }

  /** `s.splitlines()` with '\n' as the only line break: no trailing empty line, and no lines at all for "". */
  function Lines(s: string): (r: seq<string>)
    ensures forall l :: l in r ==> '\n' !in l
  {
    if s == [] then []
    else
      var pieces := Split(s, '\n');
      if pieces[|pieces| - 1] == [] then pieces[..|pieces| - 1] else pieces
  }

  /** Joining the lines back gives the text without its final line break, if it had one. */
  lemma LinesJoin(s: string)
    ensures Join("\n", Lines(s)) == if s != [] && s[|s| - 1] == '\n' then s[..|s| - 1] else s
  {
    if s != [] {
      var p := Split(s, '\n');
      var n := |p|;
      SplitJoin(s, '\n');
      var last := p[n - 1];
      if n >= 2 {
        assert p == p[..n - 1] + [last];
        JoinSnoc("\n", p[..n - 1], last);
      }
      if last == [] {
        assert n >= 2;
        assert s == Join("\n", p[..n - 1]) + "\n";
      } else {
        assert last in p;
        assert s[|s| - 1] == last[|last| - 1];
      }
    }
  }

  /** The stripped join of the lines is the stripped text. */
  lemma StripLines(s: string)
    ensures Strip(Join("\n", Lines(s))) == Strip(s)
  {
    LinesJoin(s);
    if s != [] && s[|s| - 1] == '\n' {
      assert s == s[..|s| - 1] + ['\n'];
      StripAppendSpace(s[..|s| - 1], '\n');
    }
  }

  // ---------------------------------------------------------------- find / in

  predicate OccursAt(s: string, pat: string, i: int) {
    0 <= i && i + |pat| <= |s| && s[i..i + |pat|] == pat
  }

  function FindFrom(s: string, pat: string, from: nat): (r: int)
    ensures r == -1 || (from <= r && OccursAt(s, pat, r))
    ensures forall j :: from <= j && (r == -1 || j < r) ==> !OccursAt(s, pat, j)
    decreases |s| - from
  {
    if from + |pat| > |s| then -1
    else if s[from..from + |pat|] == pat then from
    else FindFrom(s, pat, from + 1)
  }

  /** `s.find(pat)`: the lowest index where `pat` occurs, or -1. */
  function Find(s: string, pat: string): (r: int)
    ensures r == -1 <==> forall i :: !OccursAt(s, pat, i)
    ensures r != -1 ==> OccursAt(s, pat, r) && forall j :: 0 <= j < r ==> !OccursAt(s, pat, j)
  {
    FindFrom(s, pat, 0)
  }

  /** `pat in s` for strings: substring containment. */
  predicate Contains(s: string, pat: string)
    ensures Contains(s, pat) <==> exists i :: OccursAt(s, pat, i)
  {
    Find(s, pat) != -1
  }

  // ---------------------------------------------------------------- slicing

  /** `s[:k]` with Python's meaning for every integer `k` (a negative `k` counts from the end). */
  function SliceTo<T>(s: seq<T>, k: int): (r: seq<T>)
    ensures |r| <= |s| && r == s[..|r|]
    ensures 0 <= k ==> |r| == if k < |s| then k else |s|
  {
    if k >= |s| then s
    else if k >= 0 then s[..k]
    else if |s| + k >= 0 then s[..|s| + k]
    else []
  }
}
