/** The TF-IDF clause index of backend/search.py. Weights are exact reals; `math.log` and
    `math.sqrt` are parameters that only the laws in `Laws` constrain. */
module Search {
  import opened Wrappers
  import opened Strings
  import opened Sorting

  // ================================================================ tokens

  /** The class `[A-Za-zÀ-ÖØ-öø-ÿ0-9]` of TOKEN_RE. */
  predicate IsTokenChar(c: char) {
    || 'A' <= c <= 'Z' || 'a' <= c <= 'z' || '0' <= c <= '9'
    || ('\U{C0}' <= c <= '\U{D6}') || ('\U{D8}' <= c <= '\U{F6}') || ('\U{F8}' <= c <= '\U{FF}')
  }

  /** A non-empty run of token characters. */
  predicate IsWord(t: string) {
    t != [] && forall i :: 0 <= i < |t| ==> IsTokenChar(t[i])
  }

  /** The length of the longest prefix of token characters. */
  function RunLength(s: string): (n: nat)
    ensures n <= |s|
    ensures forall i :: 0 <= i < n ==> IsTokenChar(s[i])
    ensures n < |s| ==> !IsTokenChar(s[n])
  {
    if s != [] && IsTokenChar(s[0]) then 1 + RunLength(s[1..]) else 0
  }

  /** `TOKEN_RE.findall(s)`: the maximal runs of token characters, left to right. */
  function Runs(s: string): (r: seq<string>)
    ensures forall t :: t in r ==> IsWord(t)
    decreases |s|
  {
    if s == [] then []
    else if !IsTokenChar(s[0]) then Runs(s[1..])
    else
      var n := RunLength(s);
      [s[..n]] + Runs(s[n..])
  }

  /** `xs` with `d` added to every element. */
  function Shift(xs: seq<nat>, d: nat): (r: seq<nat>)
    ensures |r| == |xs| && forall k :: 0 <= k < |xs| ==> r[k] == xs[k] + d
  {
    seq(|xs|, k requires 0 <= k < |xs| => xs[k] + d)
  }

  /** Where each run of `Runs(s)` starts in `s`. */
  function RunStarts(s: string): (r: seq<nat>)
    ensures |r| == |Runs(s)|
    decreases |s|
  {
    if s == [] then []
    else if !IsTokenChar(s[0]) then Shift(RunStarts(s[1..]), 1)
    else
      var n := RunLength(s);
      [0] + Shift(RunStarts(s[n..]), n)
  }

  /** `t` occurs in `s` at `p` and cannot be extended: no token character touches either end. */
  predicate MaximalRunAt(s: string, p: int, t: string) {
    && 0 <= p && p + |t| <= |s| && s[p..p + |t|] == t
    && (p == 0 || !IsTokenChar(s[p - 1]))
    && (p + |t| == |s| || !IsTokenChar(s[p + |t|]))
  }

  /** The runs are maximal and appear left to right, separated by at least one other character. */
  lemma {:induction false} RunsAreMaximal(s: string)
    ensures forall k :: 0 <= k < |Runs(s)| ==> MaximalRunAt(s, RunStarts(s)[k], Runs(s)[k])
    ensures forall k :: 0 < k < |Runs(s)| ==> RunStarts(s)[k - 1] + |Runs(s)[k - 1]| < RunStarts(s)[k]
    decreases |s|
  {
    if s == [] {
    } else if !IsTokenChar(s[0]) {
      RunsSkip(s);
    } else {
      RunsTake(s);
    }
  }

  lemma {:induction false} RunsSkip(s: string)
    requires s != [] && !IsTokenChar(s[0])
    ensures forall k :: 0 <= k < |Runs(s)| ==> MaximalRunAt(s, RunStarts(s)[k], Runs(s)[k])
    ensures forall k :: 0 < k < |Runs(s)| ==> RunStarts(s)[k - 1] + |Runs(s)[k - 1]| < RunStarts(s)[k]
    decreases |s|, 0
  {
    var t := s[1..];
    RunsAreMaximal(t);
    var rs, st := Runs(t), RunStarts(t);
    assert Runs(s) == rs && RunStarts(s) == Shift(st, 1);
    SkipAssemble(s, rs, st);
  }

  /** The runs of `s` after a leading non-token character are the runs of `s[1..]`, shifted by
      one. */
  lemma SkipAssemble(s: string, rs: seq<string>, st: seq<nat>)
    requires s != [] && !IsTokenChar(s[0]) && |st| == |rs|
    requires forall k :: 0 <= k < |rs| ==> MaximalRunAt(s[1..], st[k], rs[k])
    requires forall k :: 0 < k < |rs| ==> st[k - 1] + |rs[k - 1]| < st[k]
    ensures var q := Shift(st, 1);
      && (forall k :: 0 <= k < |rs| ==> MaximalRunAt(s, q[k], rs[k]))
      && (forall k :: 0 < k < |rs| ==> q[k - 1] + |rs[k - 1]| < q[k])
  {
    forall k | 0 <= k < |rs| ensures MaximalRunAt(s, st[k] + 1, rs[k]) {
      MaximalInSuffix(s, 1, st[k], rs[k]);
    }
  }

  lemma {:induction false} RunsTake(s: string)
    requires s != [] && IsTokenChar(s[0])
    ensures forall k :: 0 <= k < |Runs(s)| ==> MaximalRunAt(s, RunStarts(s)[k], Runs(s)[k])
    ensures forall k :: 0 < k < |Runs(s)| ==> RunStarts(s)[k - 1] + |Runs(s)[k - 1]| < RunStarts(s)[k]
    decreases |s|, 0
  {
    var n := RunLength(s);
    var t := s[n..];
    RunsAreMaximal(t);
    var rs, st := Runs(t), RunStarts(t);
    assert Runs(s) == [s[..n]] + rs && RunStarts(s) == [0] + Shift(st, n);
    TakeAssemble(s, n, rs, st);
  }

  /** The runs of `s` after its first run `s[..n]` are the runs of `s[n..]`, shifted by `n`. */
  lemma TakeAssemble(s: string, n: nat, rs: seq<string>, st: seq<nat>)
    requires 0 < n == RunLength(s) && |st| == |rs|
    requires forall k :: 0 <= k < |rs| ==> MaximalRunAt(s[n..], st[k], rs[k]) && IsWord(rs[k])
    requires forall k :: 0 < k < |rs| ==> st[k - 1] + |rs[k - 1]| < st[k]
    ensures var r, q := [s[..n]] + rs, [0] + Shift(st, n);
      && (forall k :: 0 <= k < |r| ==> MaximalRunAt(s, q[k], r[k]))
      && (forall k :: 0 < k < |r| ==> q[k - 1] + |r[k - 1]| < q[k])
  {
    var r, q := [s[..n]] + rs, [0] + Shift(st, n);
    assert s[0..n] == s[..n];
    forall k | 1 <= k < |r| ensures MaximalRunAt(s, q[k], r[k]) && q[k - 1] + |r[k - 1]| < q[k] {
      TakeAt(s, n, rs, st, k);
    }
  }

  /** The `k`-th run of `s`, for `k >= 1`, is the `(k - 1)`-th run of the rest, shifted by `n`. */
  lemma TakeAt(s: string, n: nat, rs: seq<string>, st: seq<nat>, k: int)
    requires 0 < n == RunLength(s) && |st| == |rs| && 1 <= k <= |rs|
    requires MaximalRunAt(s[n..], st[k - 1], rs[k - 1]) && IsWord(rs[k - 1])
    requires k >= 2 ==> st[k - 2] + |rs[k - 2]| < st[k - 1]
    ensures var r, q := [s[..n]] + rs, [0] + Shift(st, n);
      MaximalRunAt(s, q[k], r[k]) && q[k - 1] + |r[k - 1]| < q[k]
  {
    TakeStep(s, n, st[k - 1], rs[k - 1]);
  }

  /** One run of the rest after the first run, moved to its place in `s`. */
  lemma TakeStep(s: string, n: nat, p: int, w: string)
    requires 0 < n == RunLength(s) && MaximalRunAt(s[n..], p, w) && IsWord(w)
    ensures MaximalRunAt(s, p + n, w) && p > 0
  {
    assert s[n..][p] == w[0];
    MaximalInSuffix(s, n, p, w);
  }

  /** A maximal run of a suffix that does not start right after a token character is a maximal
      run of the whole string. */
  lemma MaximalInSuffix(s: string, m: nat, p: int, w: string)
    requires m <= |s| && MaximalRunAt(s[m..], p, w)
    requires p == 0 ==> m == 0 || !IsTokenChar(s[m - 1])
    ensures MaximalRunAt(s, p + m, w)
  {
    var t := s[m..];
    assert s[p + m..p + m + |w|] == t[p..p + |w|];
    if p > 0 {
      assert s[p + m - 1] == t[p - 1];
    }
    if p + |w| < |t| {
      assert s[p + m + |w|] == t[p + |w|];
    }
  }

  /** The token characters of `s`, in order. */
  function TokenChars(s: string): (r: string)
    ensures |r| <= |s|
  {
    if s == [] then [] else (if IsTokenChar(s[0]) then [s[0]] else []) + TokenChars(s[1..])
  }

  function Concat(ts: seq<string>): string {
    if ts == [] then [] else ts[0] + Concat(ts[1..])
  }

  lemma {:induction false} TokenCharsAppend(a: string, b: string)
    ensures TokenChars(a + b) == TokenChars(a) + TokenChars(b)
  {
    if a != [] {
      assert (a + b)[1..] == a[1..] + b;
      TokenCharsAppend(a[1..], b);
    } else {
      assert a + b == b;
    }
  }

  lemma {:induction false} TokenCharsOfWord(t: string)
    requires forall i :: 0 <= i < |t| ==> IsTokenChar(t[i])
    ensures TokenChars(t) == t
  {
    if t != [] {
      TokenCharsOfWord(t[1..]);
    }
  }

  /** The runs lose no token character and add none: concatenated, they are exactly the token
      characters of the text, and they are empty exactly when the text has none. */
  lemma {:induction false} RunsCoverTokenChars(s: string)
    ensures Concat(Runs(s)) == TokenChars(s)
    ensures Runs(s) == [] <==> forall i :: 0 <= i < |s| ==> !IsTokenChar(s[i])
    decreases |s|
  {
    if s != [] {
      if !IsTokenChar(s[0]) {
        RunsCoverTokenChars(s[1..]);
        if Runs(s) == [] {
          forall i | 0 <= i < |s| ensures !IsTokenChar(s[i]) {
            if i > 0 {
              assert s[i] == s[1..][i - 1];
            }
          }
        }
      } else {
        var n := RunLength(s);
        RunsCoverTokenChars(s[n..]);
        assert s == s[..n] + s[n..];
        TokenCharsAppend(s[..n], s[n..]);
        TokenCharsOfWord(s[..n]);
      }
    }
  }

  /** `_tokenize(text)`: the runs, lower-cased. */
  function Tokenize(text: Option<string>): (r: seq<string>)
    ensures |r| == |Runs(text.GetOr(""))|
  {
    var runs := Runs(text.GetOr(""));
    seq(|runs|, i requires 0 <= i < |runs| => Lower(runs[i]))
  }

  /** Every token is a non-empty lower-case run of token characters; there are none exactly
      when the text has no token character. */
  lemma TokensAreLowerWords(text: Option<string>)
    ensures forall t :: t in Tokenize(text) ==> IsWord(t) && Lower(t) == t
    ensures Tokenize(text) == [] <==> forall i :: 0 <= i < |text.GetOr("")| ==> !IsTokenChar(text.GetOr("")[i])
  {
    var runs := Runs(text.GetOr(""));
    RunsCoverTokenChars(text.GetOr(""));
    forall t | t in Tokenize(text) ensures IsWord(t) && Lower(t) == t {
      var i :| 0 <= i < |runs| && t == Lower(runs[i]);
      assert runs[i] in runs;
      LowerIsIdempotent(runs[i]);
    }
  }

  // ================================================================ sums over key sets

  /** Some element of a non-empty set. */
  ghost function Pick(s: set<string>): string
    requires s != {}
  {
    var t :| t in s; t
  }

  /** The sum of `f` over a finite set; the order of the terms does not matter (`SumRemove`). */
  ghost function Sum(s: set<string>, f: string -> real): real
    decreases s
  {
    if s == {} then 0.0 else f(Pick(s)) + Sum(s - {Pick(s)}, f)
  }

  /** Any element can be taken out first. */
  lemma {:induction false} SumRemove(s: set<string>, f: string -> real, t: string)
    requires t in s
    ensures Sum(s, f) == f(t) + Sum(s - {t}, f)
    decreases s
  {
    var u := Pick(s);
    if u != t {
      SumRemove(s - {u}, f, t);
      SumRemove(s - {t}, f, u);
      assert s - {u} - {t} == s - {t} - {u};
    }
  }

  /** Functions that agree on the set have the same sum. */
  lemma {:induction false} SumAgree(s: set<string>, f: string -> real, g: string -> real)
    requires forall t :: t in s ==> f(t) == g(t)
    ensures Sum(s, f) == Sum(s, g)
    decreases s
  {
    if s != {} {
      SumAgree(s - {Pick(s)}, f, g);
    }
  }

  /** A sum of terms that are all zero is zero. */
  lemma {:induction false} SumZero(s: set<string>, f: string -> real)
    requires forall t :: t in s ==> f(t) == 0.0
    ensures Sum(s, f) == 0.0
    decreases s
  {
    if s != {} {
      SumZero(s - {Pick(s)}, f);
    }
  }

  /** A sum of non-negative terms is non-negative. */
  lemma {:induction false} SumNonNegative(s: set<string>, f: string -> real)
    requires forall t :: t in s ==> f(t) >= 0.0
    ensures Sum(s, f) >= 0.0
    decreases s
  {
    if s != {} {
      SumNonNegative(s - {Pick(s)}, f);
    }
  }

  type Vector = map<string, real>

  function Square(v: Vector): string -> real {
    t => if t in v then v[t] * v[t] else 0.0
  }

  function Product(q: Vector, d: Vector): string -> real {
    t => if t in q && t in d then q[t] * d[t] else 0.0
  }

  /** `sum(w * w for w in v.values())`. */
  ghost function SumSquares(v: Vector): real {
    Sum(v.Keys, Square(v))
  }

  /** The dot product: the sum over shared terms of the weight products. */
  ghost function Dot(q: Vector, d: Vector): real {
    Sum(q.Keys * d.Keys, Product(q, d))
  }

  lemma DotSymmetric(q: Vector, d: Vector)
    ensures Dot(q, d) == Dot(d, q)
  {
    assert q.Keys * d.Keys == d.Keys * q.Keys;
    SumAgree(q.Keys * d.Keys, Product(q, d), Product(d, q));
  }

  lemma SumSquaresNonNegative(v: Vector)
    ensures SumSquares(v) >= 0.0
  {
    SumNonNegative(v.Keys, Square(v));
  }

  /** The sum of squares of `v`, accumulated in any key order. */
  method SumOfSquares(v: Vector) returns (s: real)
    ensures s == SumSquares(v)
  {
    s := 0.0;
    var rest := v.Keys;
    while rest != {}
      invariant rest <= v.Keys
      invariant s + Sum(rest, Square(v)) == SumSquares(v)
      decreases rest
    {
      var t :| t in rest;
      SumRemove(rest, Square(v), t);
      s := s + v[t] * v[t];
      rest := rest - {t};
    }
  }

  // ================================================================ term weights

  /** How often `t` occurs in `toks`. */
  function Count(toks: seq<string>, t: string): nat {
    multiset(toks)[t]
  }

  /** The `tf` dict: each distinct token with its count. */
  function TermCounts(toks: seq<string>): map<string, int> {
    map t | t in toks :: Count(toks, t)
  }

  /** The largest of a non-empty list. */
  function MaxOf(xs: seq<int>): (m: int)
    requires xs != []
    ensures forall i :: 0 <= i < |xs| ==> xs[i] <= m
    ensures exists i :: 0 <= i < |xs| && xs[i] == m
  {
    if |xs| == 1 then xs[0]
    else
      var m := MaxOf(xs[1..]);
      assert forall i :: 1 <= i < |xs| ==> xs[i] == xs[1..][i - 1];
      if xs[0] >= m then xs[0] else m
  }

  /** `max(tf.values())`: the count of a most frequent token. */
  function MaxCount(toks: seq<string>): int
    requires toks != []
  {
    MaxOf(seq(|toks|, j requires 0 <= j < |toks| => Count(toks, toks[j])))
  }

  /** The normalised term frequency `0.5 + 0.5 * (f / max_tf)`. */
  function TfFactor(f: int, maxTf: int): real
    requires maxTf > 0
  {
    0.5 + 0.5 * (f as real / maxTf as real)
  }

  /** `idf.get(t, 0.0)`. */
  function IdfOf(idf: map<string, real>, t: string): real {
    if t in idf then idf[t] else 0.0
  }

  /** The weights `tf_norm * idf.get(t, 0.0)` for a `tf` dict. */
  function WeighCounts(tf: map<string, int>, maxTf: int, idf: map<string, real>): Vector
    requires maxTf > 0
  {
    map t | t in tf :: TfFactor(tf[t], maxTf) * IdfOf(idf, t)
  }

  /** The TF-IDF vector of a non-empty token list. */
  function Weights(toks: seq<string>, idf: map<string, real>): (r: Vector)
    requires toks != []
    ensures r.Keys == set t | t in toks
  {
    var m := MaxCount(toks);
    assert Count(toks, toks[0]) >= 1;
    var r := WeighCounts(TermCounts(toks), m, idf);
    assert forall t :: t in r <==> t in TermCounts(toks);
    r
  }

  /** Every token occurs between 1 and `max_tf` times, and some token exactly `max_tf` times. */
  lemma MaxCountBounds(toks: seq<string>)
    requires toks != []
    ensures forall t :: t in toks ==> 1 <= Count(toks, t) <= MaxCount(toks)
    ensures exists t :: t in toks && Count(toks, t) == MaxCount(toks)
  {
    var counts := seq(|toks|, j requires 0 <= j < |toks| => Count(toks, toks[j]));
    forall t | t in toks ensures 1 <= Count(toks, t) <= MaxCount(toks) {
      var j :| 0 <= j < |toks| && toks[j] == t;
      assert counts[j] == Count(toks, t);
    }
    var j :| 0 <= j < |counts| && counts[j] == MaxCount(toks);
    assert toks[j] in toks;
  }

  /** For `1 <= f <= max_tf` the factor lies in (0.5, 1] and is 1 exactly when `f == max_tf`. */
  lemma TfFactorRange(f: int, maxTf: int)
    requires 1 <= f <= maxTf
    ensures 0.5 < TfFactor(f, maxTf) <= 1.0
    ensures TfFactor(f, maxTf) == 1.0 <==> f == maxTf
  {
    var r := f as real / maxTf as real;
    assert r * maxTf as real == f as real;
    assert 0.0 < r <= 1.0;
    if r == 1.0 {
      assert f as real == maxTf as real;
    }
  }

  /** Each token is weighted by its TF factor, which lies in (0.5, 1] and is 1 exactly for the
      most frequent tokens. */
  lemma WeightsShape(toks: seq<string>, idf: map<string, real>)
    requires toks != []
    ensures forall t :: t in toks ==>
      && 0.5 < TfFactor(Count(toks, t), MaxCount(toks)) <= 1.0
      && (TfFactor(Count(toks, t), MaxCount(toks)) == 1.0 <==> Count(toks, t) == MaxCount(toks))
      && Weights(toks, idf)[t] == TfFactor(Count(toks, t), MaxCount(toks)) * IdfOf(idf, t)
  {
    MaxCountBounds(toks);
    forall t | t in toks
      ensures 0.5 < TfFactor(Count(toks, t), MaxCount(toks)) <= 1.0
      ensures TfFactor(Count(toks, t), MaxCount(toks)) == 1.0 <==> Count(toks, t) == MaxCount(toks)
      ensures Weights(toks, idf)[t] == TfFactor(Count(toks, t), MaxCount(toks)) * IdfOf(idf, t)
    {
      TfFactorRange(Count(toks, t), MaxCount(toks));
      assert TermCounts(toks)[t] == Count(toks, t);
    }
  }

  /** The `tf` loop `for t in toks: tf[t] = tf.get(t, 0) + 1`. */
  method CountTerms(toks: seq<string>) returns (tf: map<string, int>)
    ensures tf == TermCounts(toks)
  {
    tf := map[];
    for j := 0 to |toks|
      invariant forall t :: t in tf <==> t in toks[..j]
      invariant forall t :: t in tf ==> tf[t] == multiset(toks[..j])[t]
    {
      var t := toks[j];
      assert toks[..j + 1] == toks[..j] + [t];
      tf := tf[t := (if t in tf then tf[t] else 0) + 1];
    }
    assert toks[..|toks|] == toks;
  }

  /** The weighting loop `for t, f in tf.items(): vec[t] = tf_norm * idf.get(t, 0.0)`, in any
      key order. */
  method WeighTerms(tf: map<string, int>, maxTf: int, idf: map<string, real>) returns (vec: Vector)
    requires maxTf > 0
    ensures vec == WeighCounts(tf, maxTf, idf)
  {
    vec := map[];
    var rest := tf.Keys;
    while rest != {}
      invariant rest <= tf.Keys
      invariant vec.Keys == tf.Keys - rest
      invariant forall t :: t in vec ==> vec[t] == TfFactor(tf[t], maxTf) * IdfOf(idf, t)
      decreases rest
    {
      var t :| t in rest;
      var tfNorm := 0.5 + 0.5 * (tf[t] as real / maxTf as real);
      vec := vec[t := tfNorm * IdfOf(idf, t)];
      rest := rest - {t};
    }
    ghost var w := WeighCounts(tf, maxTf, idf);
    assert w.Keys == vec.Keys;
    assert forall t :: t in w ==> w[t] == vec[t];
  }

  // ================================================================ the corpus statistics

  /** A corpus entry `(document_id, clause_id, title, text)`. */
  datatype Doc = Doc(documentId: int, clauseId: int, title: string, text: string)

  function DocTokens(d: Doc): seq<string> {
    Tokenize(Some(d.text))
  }

  /** The number of documents among `docs` whose token set contains `t`. */
  function DocFreq(docs: seq<Doc>, t: string): nat {
    if docs == [] then 0
    else DocFreq(docs[..|docs| - 1], t) + (if t in DocTokens(docs[|docs| - 1]) then 1 else 0)
  }

  /** Every token of every document. */
  function Vocabulary(docs: seq<Doc>): set<string> {
    if docs == [] then {}
    else
      var toks := DocTokens(docs[|docs| - 1]);
      Vocabulary(docs[..|docs| - 1]) + set t | t in toks
  }

  /** The vocabulary holds exactly the tokens of the documents. */
  lemma {:induction false} VocabularyMembers(docs: seq<Doc>, t: string)
    ensures t in Vocabulary(docs) <==> exists d :: d in docs && t in DocTokens(d)
  {
    if docs != [] {
      var init, last := docs[..|docs| - 1], docs[|docs| - 1];
      VocabularyMembers(init, t);
      assert docs == init + [last];
      if t in Vocabulary(docs) && t !in Vocabulary(init) {
        assert last in docs;
      }
      if d :| d in docs && t in DocTokens(d) {
        if d != last {
          assert d in init;
        }
      }
    }
  }

  /** The `df` dict after `build(docs)`. */
  function DfMap(docs: seq<Doc>): (r: map<string, int>)
    ensures forall t :: t in r ==> 1 <= r[t] <= |docs|
  {
    assert forall t :: t in Vocabulary(docs) ==> 1 <= DocFreq(docs, t) <= |docs| by {
      forall t | t in Vocabulary(docs) ensures 1 <= DocFreq(docs, t) <= |docs| {
        DocFreqBounds(docs, t);
      }
    }
    map t | t in Vocabulary(docs) :: DocFreq(docs, t)
  }

  /** A term is in the vocabulary iff some document has it, and then it is counted once for
      each document that has it: `1 <= df[t] <= N`. */
  lemma {:induction false} DocFreqBounds(docs: seq<Doc>, t: string)
    ensures DocFreq(docs, t) <= |docs|
    ensures t in Vocabulary(docs) <==> DocFreq(docs, t) >= 1
  {
    if docs != [] {
      DocFreqBounds(docs[..|docs| - 1], t);
    }
  }

  /** Counting one more document adds its tokens to the vocabulary and one to their counts. */
  lemma DocFreqSnoc(docs: seq<Doc>, i: int)
    requires 0 <= i < |docs|
    ensures forall t :: DocFreq(docs[..i + 1], t) == DocFreq(docs[..i], t) + (if t in DocTokens(docs[i]) then 1 else 0)
    ensures forall t :: t in Vocabulary(docs[..i + 1]) <==> t in Vocabulary(docs[..i]) || t in DocTokens(docs[i])
  {
    assert docs[..i + 1][..i] == docs[..i];
  }

  /** `max(len(docs), 1)`. */
  function CorpusSize(docs: seq<Doc>): int {
    if |docs| > 1 then |docs| else 1
  }

  /** `math.log((N + 1) / (df + 1)) + 1.0`. */
  function IdfWeight(ln: real -> real, n: int, dfT: int): real
    requires dfT > -1
  {
    ln((n + 1) as real / (dfT + 1) as real) + 1.0
  }

  /** The `idf` dict after `build(docs)`: one weight for each key of `df`. */
  function IdfMap(ln: real -> real, docs: seq<Doc>): (r: map<string, real>)
    ensures r.Keys == DfMap(docs).Keys
  {
    var df := DfMap(docs);
    map t | t in df :: IdfWeight(ln, CorpusSize(docs), DocFreq(docs, t))
  }

  /** A map with the keys of `df` and the weight of each key's document frequency is the `idf`
      dict. */
  lemma IdfMapByKeys(ln: real -> real, docs: seq<Doc>, idf: map<string, real>)
    requires idf.Keys == DfMap(docs).Keys
    requires forall t :: t in idf ==> idf[t] == IdfWeight(ln, CorpusSize(docs), DfMap(docs)[t])
    ensures idf == IdfMap(ln, docs)
  {
  }

  /** The laws the model assumes of `math.log` and `math.sqrt`. */
  ghost predicate Laws(ln: real -> real, sqrt: real -> real) {
    && ln(1.0) == 0.0
    && (forall x, y :: 0.0 < x <= y ==> ln(x) <= ln(y))
    && sqrt(0.0) == 0.0
    && (forall x :: 0.0 <= x ==> 0.0 <= sqrt(x))
  }

  /** A rarer term never weighs less: the weight does not increase with `df`, and it is at least
      1 while `df <= N`. */
  lemma IdfWeightAntitone(ln: real -> real, sqrt: real -> real, n: int, d1: int, d2: int)
    requires Laws(ln, sqrt)
    requires 0 <= d1 <= d2 && n >= 0
    ensures IdfWeight(ln, n, d2) <= IdfWeight(ln, n, d1)
    ensures d2 <= n ==> IdfWeight(ln, n, d2) >= 1.0
  {
    var a := (n + 1) as real;
    var x1 := a / (d1 + 1) as real;
    var x2 := a / (d2 + 1) as real;
    assert x2 * (d2 + 1) as real == a;
    assert x1 * (d1 + 1) as real == a;
    assert 0.0 < x2 <= x1 by {
      assert x2 * (d1 + 1) as real <= x2 * (d2 + 1) as real;
    }
    if d2 <= n {
      assert 1.0 <= x2;
    }
  }

  /** The keys of `idf` are the keys of `df`, and every weight is at least 1 and no larger than
      the weight of any rarer term. */
  lemma IdfMapBounds(ln: real -> real, sqrt: real -> real, docs: seq<Doc>)
    requires Laws(ln, sqrt)
    ensures IdfMap(ln, docs).Keys == DfMap(docs).Keys
    ensures forall t :: t in IdfMap(ln, docs) ==> IdfMap(ln, docs)[t] >= 1.0
    ensures forall t1, t2 :: t1 in IdfMap(ln, docs) && t2 in IdfMap(ln, docs) && DfMap(docs)[t1] <= DfMap(docs)[t2] ==>
      IdfMap(ln, docs)[t2] <= IdfMap(ln, docs)[t1]
  {
    var idf := IdfMap(ln, docs);
    var n := CorpusSize(docs);
    forall t | t in idf ensures idf[t] >= 1.0 {
      DocFreqBounds(docs, t);
      IdfWeightAntitone(ln, sqrt, n, DocFreq(docs, t), DocFreq(docs, t));
    }
    forall t1, t2 | t1 in idf && t2 in idf && DfMap(docs)[t1] <= DfMap(docs)[t2]
      ensures idf[t2] <= idf[t1]
    {
      IdfWeightAntitone(ln, sqrt, n, DocFreq(docs, t1), DocFreq(docs, t2));
    }
  }

  /** The vector of a document: empty without tokens, else its TF-IDF weights. */
  function DocVector(idf: map<string, real>, text: string): (r: Vector)
    ensures r.Keys == set t | t in Tokenize(Some(text))
  {
    var toks := Tokenize(Some(text));
    if toks == [] then map[] else Weights(toks, idf)
  }

  /** The norm stored for a document: `0.0` without tokens, else `sqrt` of its sum of squares. */
  ghost function DocNorm(sqrt: real -> real, idf: map<string, real>, text: string): (r: real)
    ensures Tokenize(Some(text)) == [] ==> r == 0.0
    ensures (forall x :: 0.0 <= x ==> 0.0 <= sqrt(x)) ==> r >= 0.0
  {
    var toks := Tokenize(Some(text));
    if toks == [] then 0.0
    else
      SumSquaresNonNegative(Weights(toks, idf));
      sqrt(SumSquares(Weights(toks, idf)))
  }

  /** `_cosine(qv, qn, dv, dn)`. */
  ghost function CosineScore(qv: Vector, qn: real, dv: Vector, dn: real): (r: real)
    ensures qn == 0.0 || dn == 0.0 ==> r == 0.0
    ensures qv.Keys !! dv.Keys ==> r == 0.0
  {
    assert qv.Keys !! dv.Keys ==> Dot(qv, dv) == 0.0 by {
      if qv.Keys !! dv.Keys {
        assert qv.Keys * dv.Keys == {};
      }
    }
    if qn == 0.0 || dn == 0.0 then 0.0 else Dot(qv, dv) / (qn * dn)
  }

  /** The score does not depend on which side is the query. */
  lemma CosineSymmetric(qv: Vector, qn: real, dv: Vector, dn: real)
    ensures CosineScore(qv, qn, dv, dn) == CosineScore(dv, dn, qv, qn)
  {
    DotSymmetric(qv, dv);
    assert qn * dn == dn * qn;
  }

  /** The dot-product loop of `_cosine`: iterate the items of `a`, and for each term also in
      `b` add the product of the two weights. */
  method DotIterating(a: Vector, b: Vector) returns (num: real)
    ensures num == Dot(a, b)
  {
    num := 0.0;
    var rest := a.Keys;
    while rest != {}
      invariant rest <= a.Keys
      invariant num + Sum(rest * b.Keys, Product(a, b)) == Dot(a, b)
      decreases rest
    {
      var t :| t in rest;
      if t in b {
        SumRemove(rest * b.Keys, Product(a, b), t);
        assert (rest - {t}) * b.Keys == rest * b.Keys - {t};
        num := num + a[t] * b[t];
      } else {
        assert (rest - {t}) * b.Keys == rest * b.Keys;
      }
      rest := rest - {t};
    }
  }

  // ================================================================ ranking

  /** A `(score, index)` tuple of `scored`. */
  datatype Scored = Scored(score: real, idx: int)

  /** `a` comes before `b` in `scored.sort(reverse=True)`: a higher score, or the same score and
      a higher corpus index (tuples compare field by field). */
  predicate Outranks(a: Scored, b: Scored) {
    a.score > b.score || (a.score == b.score && a.idx > b.idx)
  }

  function ByScore(): (Scored, Scored) -> bool {
    (a, b) => Outranks(a, b)
  }

  /** The strictly positive scores of the first `n` clauses, in corpus order. */
  ghost function Positives(qv: Vector, qn: real, vectors: seq<Vector>, norms: seq<real>, n: int): (r: seq<Scored>)
    requires 0 <= n <= |vectors| && |norms| == |vectors|
    ensures forall p :: p in r ==> p.score > 0.0 && 0 <= p.idx < n
    ensures forall a, b :: 0 <= a < b < |r| ==> r[a].idx < r[b].idx
    ensures |r| <= n
  {
    if n == 0 then []
    else
      var s := CosineScore(qv, qn, vectors[n - 1], norms[n - 1]);
      Positives(qv, qn, vectors, norms, n - 1) + (if s > 0.0 then [Scored(s, n - 1)] else [])
  }

  /** A clause is among the positives exactly when its score is strictly positive. */
  lemma {:induction false} PositivesMembers(qv: Vector, qn: real, vectors: seq<Vector>, norms: seq<real>, n: int, i: int)
    requires 0 <= n <= |vectors| && |norms| == |vectors| && 0 <= i < n
    ensures Scored(CosineScore(qv, qn, vectors[i], norms[i]), i) in Positives(qv, qn, vectors, norms, n)
        <==> CosineScore(qv, qn, vectors[i], norms[i]) > 0.0
  {
    if i < n - 1 {
      PositivesMembers(qv, qn, vectors, norms, n - 1, i);
    }
  }

  /** A kept clause carries its own score. */
  lemma {:induction false} PositivesScores(qv: Vector, qn: real, vectors: seq<Vector>, norms: seq<real>, n: int, i: int)
    requires 0 <= n <= |vectors| && |norms| == |vectors| && 0 <= i < n
    ensures forall p :: p in Positives(qv, qn, vectors, norms, n) && p.idx == i ==>
      p.score == CosineScore(qv, qn, vectors[i], norms[i])
  {
    if i < n - 1 {
      PositivesScores(qv, qn, vectors, norms, n - 1, i);
    }
  }

  /** The positives sorted by `(score, index)`: exactly the positives, each once, highest score
      first and, among equal scores, the higher corpus index first. */
  ghost function Ranking(qv: Vector, qn: real, vectors: seq<Vector>, norms: seq<real>): (r: seq<Scored>)
    requires |norms| == |vectors|
    ensures multiset(r) == multiset(Positives(qv, qn, vectors, norms, |vectors|))
    ensures forall a, b :: 0 <= a < b < |r| ==> Outranks(r[a], r[b])
    ensures |r| <= |vectors| && forall p :: p in r ==> p.score > 0.0 && 0 <= p.idx < |vectors|
  {
    var ps := Positives(qv, qn, vectors, norms, |vectors|);
    PositivesSortable(ps);
    SortSorted(ByScore(), (set p | p in ps), ps);
    var r := Sort(ByScore(), ps);
    SameElements(r, ps);
    r
  }

  /** Positives have distinct indices, so they are distinct and `(score, index)` orders them totally. */
  lemma PositivesSortable(ps: seq<Scored>)
    requires forall a, b :: 0 <= a < b < |ps| ==> ps[a].idx < ps[b].idx
    ensures Distinct(ps) && TotalOn(ByScore(), set p | p in ps)
  {
  }

  /** Two lists with the same multiset have the same length and the same members. */
  lemma SameElements<T>(r: seq<T>, ps: seq<T>)
    requires multiset(r) == multiset(ps)
    ensures |r| == |ps| && forall p :: p in r <==> p in ps
  {
    assert |r| == |multiset(r)| == |multiset(ps)| == |ps|;
    assert forall p :: p in r <==> p in multiset(r);
  }

  // ================================================================ hits

  /** The hit dict {"document_id", "clause_id", "title", "snippet", "score"}. */
  datatype Hit = Hit(documentId: int, clauseId: int, title: string, snippet: string, score: real)

  const SnippetChars := 300

  /** `text[:300].replace("\n", " ")`. */
  function Snippet(text: string): (r: string)
    ensures |r| == if |text| < SnippetChars then |text| else SnippetChars
    ensures forall i :: 0 <= i < |r| ==> r[i] == if text[i] == '\n' then ' ' else text[i]
  {
    var t := SliceTo(text, SnippetChars);
    seq(|t|, i requires 0 <= i < |t| => if t[i] == '\n' then ' ' else t[i])
  }

  /** A snippet holds no line break. */
  lemma SnippetHasNoNewline(text: string)
    ensures '\n' !in Snippet(text)
  {
    var r := Snippet(text);
    forall i | 0 <= i < |r| ensures r[i] != '\n' {
    }
  }

  function MakeHit(docs: seq<Doc>, p: Scored): Hit
    requires 0 <= p.idx < |docs|
  {
    var d := docs[p.idx];
    Hit(d.documentId, d.clauseId, d.title, Snippet(d.text), p.score)
  }

  function HitsOf(docs: seq<Doc>, top: seq<Scored>): (r: seq<Hit>)
    requires forall p :: p in top ==> 0 <= p.idx < |docs|
    ensures |r| == |top|
  {
    seq(|top|, j requires 0 <= j < |top| => MakeHit(docs, top[j]))
  }

  /** What `search(q, k)` returns on an index whose fields are `docs`, `idf`, `vectors`, `norms`. */
  ghost function Results(docs: seq<Doc>, idf: map<string, real>, vectors: seq<Vector>, norms: seq<real>,
                         sqrt: real -> real, q: string, k: int): (r: seq<Hit>)
    requires |vectors| == |docs| && |norms| == |docs|
    ensures |r| <= |docs| && (0 <= k ==> |r| <= k)
    ensures forall h :: h in r ==> h.score > 0.0
  {
    var qtoks := Tokenize(Some(q));
    if qtoks == [] then []
    else
      var qv := Weights(qtoks, idf);
      var ranking := Ranking(qv, sqrt(SumSquares(qv)), vectors, norms);
      var top := SliceTo(ranking, k);
      assert forall p :: p in top ==> p in ranking;
      var r := HitsOf(docs, top);
      assert forall j :: 0 <= j < |r| ==> r[j].score == top[j].score && top[j] in ranking;
      r
  }

  /** The hits are the first `k` entries of the ranking (all of them when `k >= 0` exceeds it),
      each copying the ids and title of its clause, with its snippet and score. */
  lemma ResultsAreTopRanked(docs: seq<Doc>, idf: map<string, real>, vectors: seq<Vector>, norms: seq<real>,
                            sqrt: real -> real, q: string, k: int)
    requires |vectors| == |docs| && |norms| == |docs|
    requires Tokenize(Some(q)) != []
    ensures var qv := Weights(Tokenize(Some(q)), idf);
      var ranking := Ranking(qv, sqrt(SumSquares(qv)), vectors, norms);
      var hits := Results(docs, idf, vectors, norms, sqrt, q, k);
      && (0 <= k ==> |hits| == if k < |ranking| then k else |ranking|)
      && |hits| <= |ranking|
      && forall j :: 0 <= j < |hits| ==>
           && 0 <= ranking[j].idx < |docs|
           && hits[j].score == ranking[j].score > 0.0
           && hits[j].documentId == docs[ranking[j].idx].documentId
           && hits[j].clauseId == docs[ranking[j].idx].clauseId
           && hits[j].title == docs[ranking[j].idx].title
           && hits[j].snippet == Snippet(docs[ranking[j].idx].text)
  {
    var qv := Weights(Tokenize(Some(q)), idf);
    var ranking := Ranking(qv, sqrt(SumSquares(qv)), vectors, norms);
    var top := SliceTo(ranking, k);
    forall j | 0 <= j < |top| ensures top[j] == ranking[j] && top[j] in multiset(Positives(qv, sqrt(SumSquares(qv)), vectors, norms, |vectors|)) {
      assert top[j] in ranking;
    }
  }

  /** A query none of whose tokens has an `idf` entry weighs 0 everywhere, so its norm is 0. */
  lemma UnknownQueryHasZeroNorm(ln: real -> real, sqrt: real -> real, qtoks: seq<string>, idf: map<string, real>)
    requires Laws(ln, sqrt)
    requires qtoks != [] && forall t :: t in qtoks ==> t !in idf
    ensures sqrt(SumSquares(Weights(qtoks, idf))) == 0.0
  {
    var qv := Weights(qtoks, idf);
    WeightsShape(qtoks, idf);
    forall t | t in qv.Keys ensures Square(qv)(t) == 0.0 {
      assert qv[t] == 0.0;
    }
    SumZero(qv.Keys, Square(qv));
  }

  /** With a zero query norm every cosine is 0, so no clause scores. */
  lemma {:induction false} NoPositivesAtZeroNorm(qv: Vector, vectors: seq<Vector>, norms: seq<real>, n: int)
    requires 0 <= n <= |vectors| && |norms| == |vectors|
    ensures Positives(qv, 0.0, vectors, norms, n) == []
  {
    if n > 0 {
      NoPositivesAtZeroNorm(qv, vectors, norms, n - 1);
    }
  }

  /** No hits without query tokens, on an unbuilt index, or when no query token has a weight. */
  lemma NoResults(docs: seq<Doc>, idf: map<string, real>, vectors: seq<Vector>, norms: seq<real>,
                  ln: real -> real, sqrt: real -> real, q: string, k: int)
    requires |vectors| == |docs| && |norms| == |docs|
    requires Tokenize(Some(q)) == [] || docs == [] || (Laws(ln, sqrt) && forall t :: t in Tokenize(Some(q)) ==> t !in idf)
    ensures Results(docs, idf, vectors, norms, sqrt, q, k) == []
  {
    var qtoks := Tokenize(Some(q));
    if qtoks != [] {
      var qv := Weights(qtoks, idf);
      var qn := sqrt(SumSquares(qv));
      if docs != [] {
        UnknownQueryHasZeroNorm(ln, sqrt, qtoks, idf);
        NoPositivesAtZeroNorm(qv, vectors, norms, |vectors|);
      }
      assert Positives(qv, qn, vectors, norms, |vectors|) == [];
      assert Ranking(qv, qn, vectors, norms) == [];
    }
  }

  // ================================================================ the index

  class ClauseIndex {
    /** `math.log` and `math.sqrt`. */
    const ln: real -> real
    const sqrt: real -> real

    var docs: seq<Doc>
    var df: map<string, int>
    var idf: map<string, real>
    var vectors: seq<Vector>
    var norms: seq<real>

    /** One vector and one norm per document; `idf` has the keys of `df`. */
    ghost predicate Valid()
      reads this
    {
      |vectors| == |docs| && |norms| == |docs| && idf.Keys == df.Keys
    }

    /** `ClauseIndex()`: an empty index (`index_dir` is unused). */
    constructor(ln: real -> real, sqrt: real -> real)
      ensures this.ln == ln && this.sqrt == sqrt
      ensures docs == [] && df == map[] && idf == map[] && vectors == [] && norms == []
      ensures Valid()
    {
      this.ln := ln;
      this.sqrt := sqrt;
      docs := [];
      df := map[];
      idf := map[];
      vectors := [];
      norms := [];
    }

    /** `build(meta)`: every field is cleared and recomputed from `meta` alone. */
    method Build(meta: seq<Doc>)
      modifies this
      ensures docs == meta
      ensures df == DfMap(meta)
      ensures idf == IdfMap(ln, meta)
      ensures |vectors| == |meta| && |norms| == |meta|
      ensures forall i :: 0 <= i < |meta| ==>
        vectors[i] == DocVector(idf, meta[i].text) && norms[i] == DocNorm(sqrt, idf, meta[i].text)
      ensures Valid()
    {
      docs := meta;
      df := map[];
      idf := map[];
      vectors := [];
      norms := [];
      CountDocumentFrequencies();
      ComputeIdf();
      ComputeVectors();
    }

    /** Step 1 of `build`: `df[t] += 1` for each distinct token of each document. */
    method CountDocumentFrequencies()
      requires df == map[]
      modifies this`df
      ensures df == DfMap(docs)
    {
      for i := 0 to |docs|
        invariant forall t :: t in df <==> t in Vocabulary(docs[..i])
        invariant forall t :: t in df ==> df[t] == DocFreq(docs[..i], t)
      {
        var toks := set t | t in Tokenize(Some(docs[i].text));
        CountTokens(toks);
        DocFreqSnoc(docs, i);
        forall t | t in df ensures df[t] == DocFreq(docs[..i + 1], t) {
          DocFreqBounds(docs[..i], t);
        }
      }
      assert docs[..|docs|] == docs;
    }

    /** The inner loop of step 1: `for t in set(toks): df[t] = df.get(t, 0) + 1`. */
    method CountTokens(toks: set<string>)
      modifies this`df
      ensures forall t :: t in df <==> t in old(df) || t in toks
      ensures forall t :: t in df ==> df[t] == (if t in old(df) then old(df)[t] else 0) + (if t in toks then 1 else 0)
    {
      var rest := toks;
      while rest != {}
        invariant rest <= toks
        invariant forall t :: t in df <==> t in old(df) || t in toks - rest
        invariant forall t :: t in df ==> df[t] == (if t in old(df) then old(df)[t] else 0) + (if t in toks - rest then 1 else 0)
        decreases rest
      {
        var t :| t in rest;
        df := df[t := (if t in df then df[t] else 0) + 1];
        rest := rest - {t};
      }
    }

    /** Step 2 of `build`: `idf[t] = log((N + 1) / (df + 1)) + 1` for each key of `df`. */
    method ComputeIdf()
      requires df == DfMap(docs) && idf == map[]
      modifies this`idf
      ensures idf == IdfMap(ln, docs)
    {
      var n := if |docs| > 1 then |docs| else 1;
      var rest := df.Keys;
      while rest != {}
        invariant rest <= df.Keys
        invariant idf.Keys == df.Keys - rest
        invariant forall t :: t in idf ==> idf[t] == IdfWeight(ln, n, df[t])
        decreases rest
      {
        var t :| t in rest;
        var w := ln((n + 1) as real / (df[t] + 1) as real) + 1.0;
        assert w == IdfWeight(ln, n, df[t]);
        idf := idf[t := w];
        rest := rest - {t};
      }
      IdfMapByKeys(ln, docs, idf);
    }

    /** Step 3 of `build`: one TF-IDF vector and one norm per document, in corpus order. */
    method ComputeVectors()
      requires vectors == [] && norms == []
      modifies this`vectors, this`norms
      ensures |vectors| == |docs| && |norms| == |docs|
      ensures forall i :: 0 <= i < |docs| ==>
        vectors[i] == DocVector(idf, docs[i].text) && norms[i] == DocNorm(sqrt, idf, docs[i].text)
    {
      for i := 0 to |docs|
        invariant |vectors| == i && |norms| == i
        invariant forall j :: 0 <= j < i ==>
          vectors[j] == DocVector(idf, docs[j].text) && norms[j] == DocNorm(sqrt, idf, docs[j].text)
      {
        var toks := Tokenize(Some(docs[i].text));
        if toks == [] {
          vectors := vectors + [map[]];
          norms := norms + [0.0];
        } else {
          var tf := CountTerms(toks);
          var maxTf := MaxCount(toks);
          assert Count(toks, toks[0]) >= 1;
          var vec := WeighTerms(tf, maxTf, idf);
          var sumSq := SumOfSquares(vec);
          vectors := vectors + [vec];
          norms := norms + [sqrt(sumSq)];
        }
      }
    }

    /** `_cosine(qv, qn, dv, dn)`: either map may be iterated, the sum is the same. */
    method Cosine(qv: Vector, qn: real, dv: Vector, dn: real) returns (r: real)
      ensures r == CosineScore(qv, qn, dv, dn)
    {
      if qn == 0.0 || dn == 0.0 {
        return 0.0;
      }
      var num;
      if |qv| < |dv| {
        num := DotIterating(qv, dv);
      } else {
        num := DotIterating(dv, qv);
        DotSymmetric(dv, qv);
      }
      r := num / (qn * dn);
    }

    /** `search(q, k)`; the index is left unchanged. */
    method Search(q: string, k: int) returns (hits: seq<Hit>)
      requires Valid()
      ensures hits == Results(docs, idf, vectors, norms, sqrt, q, k)
    {
      var qtoks := Tokenize(Some(q));
      if qtoks == [] {
        return [];
      }
      var qtf := CountTerms(qtoks);
      var maxQtf := MaxCount(qtoks);
      assert Count(qtoks, qtoks[0]) >= 1;
      var qvec := WeighTerms(qtf, maxQtf, idf);
      var sumSq := SumOfSquares(qvec);
      var qnorm := sqrt(sumSq);

      var scored := ScoreClauses(qvec, qnorm);
      scored := Sort(ByScore(), scored);
      var top := SliceTo(scored, k);
      assert forall p :: p in top ==> p in multiset(Positives(qvec, qnorm, vectors, norms, |vectors|));
      hits := FormatHits(top);
    }

    /** The scoring loop of `search`: `(cosine, i)` for each clause with a strictly positive cosine. */
    method ScoreClauses(qvec: Vector, qnorm: real) returns (scored: seq<Scored>)
      requires Valid()
      ensures scored == Positives(qvec, qnorm, vectors, norms, |vectors|)
    {
      scored := [];
      for i := 0 to |vectors|
        invariant scored == Positives(qvec, qnorm, vectors, norms, i)
      {
        var s := Cosine(qvec, qnorm, vectors[i], norms[i]);
        if s > 0.0 {
          scored := scored + [Scored(s, i)];
        }
      }
    }

    /** The output loop of `search`: one hit per ranked `(score, idx)`, in order. */
    method FormatHits(top: seq<Scored>) returns (hits: seq<Hit>)
      requires forall p :: p in top ==> 0 <= p.idx < |docs|
      ensures hits == HitsOf(docs, top)
    {
      hits := [];
      for j := 0 to |top|
        invariant |hits| == j
        invariant forall m :: 0 <= m < j ==> hits[m] == MakeHit(docs, top[m])
      {
        var d := docs[top[j].idx];
        var snippet := Snippet(d.text);
        hits := hits + [Hit(d.documentId, d.clauseId, d.title, snippet, top[j].score)];
      }
    }
  }
}
