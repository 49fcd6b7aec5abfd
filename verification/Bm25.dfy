/** BM25 ranking over an index of preprocessed documents (`BM25Scorer`). Documents and queries are
    sequences of terms; arithmetic is exact, and the logarithm is any strictly increasing function
    that is 0 at 1. */
module Bm25 {
  type Term = string
  type Doc = seq<Term>

  // ---------------------------------------------------------------------------------------------
  // Definitions
  // ---------------------------------------------------------------------------------------------

  function Count(doc: Doc, t: Term): nat {
    if doc == [] then 0 else Count(doc[..|doc| - 1], t) + (if doc[|doc| - 1] == t then 1 else 0)
  }

  /** The number of documents that contain the term. */
  function DocumentFrequency(docs: seq<Doc>, t: Term): nat {
    if docs == [] then 0
    else DocumentFrequency(docs[..|docs| - 1], t) + (if t in docs[|docs| - 1] then 1 else 0)
  }

  function TotalLength(docs: seq<Doc>): nat {
    if docs == [] then 0 else TotalLength(docs[..|docs| - 1]) + |docs[|docs| - 1]|
  }

  function AverageLength(docs: seq<Doc>): real {
    if docs == [] then 0.0 else TotalLength(docs) as real / |docs| as real
  }

  ghost predicate IsLog(log: real -> real) {
    log(1.0) == 0.0 && forall x, y :: 0.0 < x < y ==> log(x) < log(y)
  }

  function Rarity(n: nat, df: nat, log: real -> real): real {
    log((n as real - df as real + 0.5) / (df as real + 0.5) + 1.0)
  }

  /** A term that is nowhere weighs nothing. */
  function Idf(docs: seq<Doc>, t: Term, log: real -> real): real {
    if DocumentFrequency(docs, t) == 0 then 0.0 else Rarity(|docs|, DocumentFrequency(docs, t), log)
  }

  datatype Params = Params(k1: real, b: real, delta: real)

  /** The parameter ranges of BM25+. */
  predicate Sensible(p: Params) {
    p.k1 >= 0.0 && 0.0 <= p.b <= 1.0 && p.delta >= 0.0
  }

  /** The length normalisation of a document. */
  function Norm(p: Params, length: nat, average: real): real
    requires average > 0.0
  {
    p.k1 * (1.0 - p.b + p.b * length as real / average)
  }

  function Damped(f: real, k: real, norm: real): real
    requires f + norm != 0.0
  {
    (f * k) / (f + norm)
  }

  function Saturation(p: Params, tf: nat, norm: real): real
    requires tf as real + norm != 0.0
  {
    Damped(tf as real, p.k1 + 1.0, norm)
  }

  /** What one query term contributes. */
  function Weight(p: Params, idf: real, tf: nat, norm: real): real
    requires norm >= 0.0
  {
    if tf == 0 then 0.0 else idf * (Saturation(p, tf, norm) + p.delta)
  }

  /** The score of a document against the collection `docs`. */
  function Score(p: Params, query: seq<Term>, docs: seq<Doc>, log: real -> real, doc: Doc, norm: real): real
    requires norm >= 0.0
  {
    if query == [] then 0.0
    else
      var t := query[|query| - 1];
      Score(p, query[..|query| - 1], docs, log, doc, norm) + Weight(p, Idf(docs, t, log), Count(doc, t), norm)
  }

  // ---------------------------------------------------------------------------------------------
  // The index
  // ---------------------------------------------------------------------------------------------

  /** The map counts exactly the terms of the document. */
  ghost predicate CountsTerms(tfMap: map<Term, nat>, doc: Doc) {
    forall t :: (t in tfMap <==> t in doc) && (t in tfMap ==> tfMap[t] == Count(doc, t))
  }

  ghost predicate CountsDocs(df: map<Term, nat>, docs: seq<Doc>) {
    forall t :: (t in df <==> DocumentFrequency(docs, t) > 0) && (t in df ==> df[t] == DocumentFrequency(docs, t))
  }

  class Scorer {
    const p: Params
    const log: real -> real
    var docLens: seq<nat>
    var averageLength: real
    var tfMaps: seq<map<Term, nat>>
    var df: map<Term, nat>
    var idf: map<Term, real>

    constructor (p: Params, log: real -> real)
      requires Sensible(p)
      ensures this.p == p && this.log == log && Indexes([])
    {
      this.p, this.log := p, log;
      docLens, averageLength, tfMaps, df, idf := [], 0.0, [], map[], map[];
    }

    /** The index holds what the definitions say of the documents. */
    ghost predicate Indexes(docs: seq<Doc>)
      reads this
    {
      && |docLens| == |tfMaps| == |docs| && averageLength == AverageLength(docs)
      && (forall i :: 0 <= i < |docs| ==> docLens[i] == |docs[i]| && CountsTerms(tfMaps[i], docs[i]))
      && CountsDocs(df, docs)
      && idf.Keys == df.Keys && (forall t :: t in idf ==> idf[t] == Idf(docs, t, log))
    }

    method CountTerms(doc: Doc) returns (tfMap: map<Term, nat>)
      ensures CountsTerms(tfMap, doc)
    {
      tfMap := map[];
      for i := 0 to |doc|
        invariant CountsTerms(tfMap, doc[..i])
      {
        assert doc[..i + 1][..i] == doc[..i] && doc[..i + 1] == doc[..i] + [doc[i]];
        tfMap := tfMap[doc[i] := (if doc[i] in tfMap then tfMap[doc[i]] else 0) + 1];
        forall t | t !in doc[..i]
          ensures Count(doc[..i], t) == 0
        {
          AbsentTerm(doc[..i], t);
        }
      }
      assert doc[..|doc|] == doc;
    }

    /** One document's distinct terms each count once. */
    method CountDocument(df: map<Term, nat>, doc: Doc) returns (r: map<Term, nat>)
      ensures forall t :: t in r <==> t in df || t in doc
      ensures forall t :: t in r ==> r[t] == (if t in df then df[t] else 0) + (if t in doc then 1 else 0)
    {
      r := df;
      var todo := set t | t in doc;
      while todo != {}
        invariant forall t :: t in todo ==> t in doc
        invariant forall t :: t in r <==> t in df || (t in doc && t !in todo)
        invariant forall t :: t in r ==> r[t] == (if t in df then df[t] else 0) + (if t in doc && t !in todo then 1 else 0)
        decreases todo
      {
        var t :| t in todo;
        r := r[t := (if t in r then r[t] else 0) + 1];
        todo := todo - {t};
      }
    }

    method CountDocuments(docs: seq<Doc>) returns (df: map<Term, nat>)
      ensures CountsDocs(df, docs)
    {
      df := map[];
      for i := 0 to |docs|
        invariant CountsDocs(df, docs[..i])
      {
        assert docs[..i + 1][..i] == docs[..i];
        df := CountDocument(df, docs[i]);
      }
      assert docs[..|docs|] == docs;
    }

    method CountAll(docs: seq<Doc>) returns (lens: seq<nat>, total: nat, maps: seq<map<Term, nat>>)
      ensures |lens| == |maps| == |docs| && total == TotalLength(docs)
      ensures forall j :: 0 <= j < |docs| ==> lens[j] == |docs[j]| && CountsTerms(maps[j], docs[j])
    {
      hide CountsTerms;
      lens, total, maps := [], 0, [];
      for i := 0 to |docs|
        invariant |lens| == |maps| == i && total == TotalLength(docs[..i])
        invariant forall j :: 0 <= j < i ==> lens[j] == |docs[j]| && CountsTerms(maps[j], docs[j])
      {
        assert docs[..i + 1][..i] == docs[..i];
        var tfMap := CountTerms(docs[i]);
        lens, total, maps := lens + [|docs[i]|], total + |docs[i]|, maps + [tfMap];
      }
      assert docs[..|docs|] == docs;
    }

    method BuildIndex(docs: seq<Doc>)
      modifies this
      ensures Indexes(docs)
    {
      hide CountsTerms, Rarity;
      var total;
      docLens, total, tfMaps := CountAll(docs);
      averageLength := if |docs| == 0 then 0.0 else total as real / |docs| as real;
      var counted := CountDocuments(docs);
      df := counted;
      idf := map t | t in counted :: Rarity(|docs|, counted[t], log);
    }

    /** What a term of weight `weight` adds that occurs `tf` times in a document. */
    method Contribution(weight: real, tf: nat, length: nat) returns (r: real)
      requires Sensible(p) && averageLength > 0.0
      ensures r == Weight(p, weight, tf, NormPositive(p, length, averageLength))
    {
      if tf == 0 { return 0.0; }
      ghost var norm := NormPositive(p, length, averageLength);
      var numerator := tf as real * (p.k1 + 1.0);
      var denominator := tf as real + p.k1 * (1.0 - p.b + p.b * length as real / averageLength);
      assert denominator == tf as real + norm > 0.0;
      r := weight * (numerator / denominator + p.delta);
    }

    /** `_score_doc`. */
    method ScoreDoc(query: seq<Term>, i: nat, ghost docs: seq<Doc>) returns (total: real)
      requires Sensible(p) && Indexes(docs) && i < |docs|
      ensures total == ScoreOf(p, query, docs, i, log)
    {
      if averageLength == 0.0 {
        NoTermsAnywhere(docs, i);
        NothingOccurs(p, query, docs, i, log);
        return 0.0;
      }
      hide Weight, NormPositive, Rarity;
      AverageIsPositive(docs);
      var tfMap := tfMaps[i];
      total := 0.0;
      for j := 0 to |query|
        invariant total == Score(p, query[..j], docs, log, docs[i], NormOf(p, docs, i))
      {
        var t := query[j];
        var weight := if t in idf then idf[t] else 0.0;
        var tf := if t in tfMap then tfMap[t] else 0;
        AbsentTerm(docs[i], t);
        ScoreSnoc(p, query[..j], t, docs, log, docs[i], NormOf(p, docs, i));
        assert query[..j + 1] == query[..j] + [t];
        var added := Contribution(weight, tf, docLens[i]);
        total := total + added;
      }
      assert query[..|query|] == query;
    }

    /** Every document's score, in index order. */
    method ScoreAll(query: seq<Term>, ghost docs: seq<Doc>) returns (scores: seq<real>)
      requires Sensible(p) && Indexes(docs)
      ensures |scores| == |docs| && forall i :: 0 <= i < |docs| ==> scores[i] == ScoreOf(p, query, docs, i, log)
    {
      if |docLens| == 0 || averageLength == 0.0 || query == [] {
        scores := seq(|docLens|, _ => 0.0);
        forall i | 0 <= i < |docs|
          ensures ScoreOf(p, query, docs, i, log) == 0.0
        {
          if query != [] {
            NoTermsAnywhere(docs, i);
            NothingOccurs(p, query, docs, i, log);
          }
        }
        return;
      }
      scores := [];
      for i := 0 to |docLens|
        invariant |scores| == i && forall j :: 0 <= j < i ==> scores[j] == ScoreOf(p, query, docs, j, log)
      {
        var s := ScoreDoc(query, i, docs);
        scores := scores + [s];
      }
    }
  }

  lemma {:induction false} AbsentTerm(doc: Doc, t: Term)
    ensures Count(doc, t) > 0 <==> t in doc
  {
    if doc != [] {
      AbsentTerm(doc[..|doc| - 1], t);
      assert doc == doc[..|doc| - 1] + [doc[|doc| - 1]];
    }
  }

  lemma ScoreSnoc(p: Params, query: seq<Term>, t: Term, docs: seq<Doc>, log: real -> real, doc: Doc, norm: real)
    requires norm >= 0.0
    ensures Score(p, query + [t], docs, log, doc, norm)
            == Score(p, query, docs, log, doc, norm) + Weight(p, Idf(docs, t, log), Count(doc, t), norm)
  {
    assert (query + [t])[..|query|] == query;
  }

  lemma {:induction false} TotalCovers(docs: seq<Doc>, i: nat)
    requires i < |docs|
    ensures TotalLength(docs) >= |docs[i]|
  {
    if i < |docs| - 1 { TotalCovers(docs[..|docs| - 1], i); }
  }

  lemma NoTermsAnywhere(docs: seq<Doc>, i: nat)
    requires i < |docs| && AverageLength(docs) == 0.0
    ensures docs[i] == []
  {
    TotalCovers(docs, i);
  }

  lemma AverageIsPositive(docs: seq<Doc>)
    requires AverageLength(docs) != 0.0
    ensures AverageLength(docs) > 0.0
  {
  }

  /** The normalisation of document `i`; without any text it does not matter. */
  function NormOf(p: Params, docs: seq<Doc>, i: nat): (r: real)
    requires Sensible(p) && i < |docs|
    ensures r >= 0.0
  {
    if AverageLength(docs) > 0.0 then NormPositive(p, |docs[i]|, AverageLength(docs)) else 0.0
  }

  function NormPositive(p: Params, length: nat, average: real): (r: real)
    requires Sensible(p) && average > 0.0
    ensures r == Norm(p, length, average) && r >= 0.0
  {
    assert p.b * length as real >= 0.0;
    assert p.b * length as real / average >= 0.0;
    assert 1.0 - p.b + p.b * length as real / average >= 0.0;
    Norm(p, length, average)
  }

  /** The score of document `i` of the collection. */
  function ScoreOf(p: Params, query: seq<Term>, docs: seq<Doc>, i: nat, log: real -> real): real
    requires Sensible(p) && i < |docs|
  {
    Score(p, query, docs, log, docs[i], NormOf(p, docs, i))
  }

  lemma {:induction false} NothingOccurs(p: Params, query: seq<Term>, docs: seq<Doc>, i: nat, log: real -> real)
    requires Sensible(p) && i < |docs| && forall t :: t in query ==> t !in docs[i]
    ensures ScoreOf(p, query, docs, i, log) == 0.0
  {
    if query != [] {
      NothingOccurs(p, query[..|query| - 1], docs, i, log);
      AbsentTerm(docs[i], query[|query| - 1]);
    }
  }

  // ---------------------------------------------------------------------------------------------
  // What the scores are worth
  // ---------------------------------------------------------------------------------------------

  lemma {:induction false} FrequencyBounds(docs: seq<Doc>, t: Term)
    ensures DocumentFrequency(docs, t) <= |docs|
    ensures DocumentFrequency(docs, t) > 0 <==> exists i :: 0 <= i < |docs| && t in docs[i]
  {
    if docs != [] {
      var before := docs[..|docs| - 1];
      FrequencyBounds(before, t);
      if DocumentFrequency(before, t) > 0 {
        var i :| 0 <= i < |before| && t in before[i];
        assert t in docs[i];
      }
      if i :| 0 <= i < |docs| && t in docs[i] {
        assert i < |before| ==> t in before[i];
      }
    }
  }

  /** The normalisation is linear in the length: it is k1 at the average length, and rises by k1 * b per
      average length on top. */
  lemma NormIsLinear(p: Params, length: nat, average: real)
    requires average > 0.0
    ensures (length as real == average ==> Norm(p, length, average) == p.k1)
    ensures Norm(p, length, average) - p.k1 == p.k1 * p.b * ((length as real - average) / average)
  {
    var q := length as real / average;
    QuotientIs(length as real - average, average, q - 1.0);
    assert p.b * length as real / average == p.b * q;
  }

  /** One occurrence in a document of average length weighs the term's weight times 1 + delta. */
  lemma OneAverageOccurrence(p: Params, idf: real, length: nat, average: real)
    requires Sensible(p) && average > 0.0 && length as real == average
    ensures Norm(p, length, average) >= 0.0 && Weight(p, idf, 1, Norm(p, length, average)) == idf * (1.0 + p.delta)
  {
    NormIsLinear(p, length, average);
    QuotientIs(1.0 * (p.k1 + 1.0), 1.0 + p.k1, 1.0);
  }

  /** Every term that occurs somewhere has a positive weight. */
  lemma IdfPositive(docs: seq<Doc>, t: Term, log: real -> real)
    requires IsLog(log)
    ensures Idf(docs, t, log) >= 0.0 && (Idf(docs, t, log) > 0.0 <==> exists i :: 0 <= i < |docs| && t in docs[i])
  {
    FrequencyBounds(docs, t);
    if DocumentFrequency(docs, t) > 0 {
      var n, df := |docs| as real, DocumentFrequency(docs, t) as real;
      assert (n - df + 0.5) / (df + 0.5) > 0.0;
      assert log(1.0) < log((n - df + 0.5) / (df + 0.5) + 1.0);
    }
  }

  /** The weight of a term by itself: the logarithm of (2n + 2) / (2 df + 1). */
  lemma RarityIsLog(n: nat, df: nat, log: real -> real)
    ensures Rarity(n, df, log) == log((2 * n + 2) as real / (2 * df + 1) as real)
  {
    var a, b := n as real - df as real + 0.5, df as real + 0.5;
    var q := a / b;
    assert (q + 1.0) * b == a + b;
    assert 2.0 * (a + b) == (2 * n + 2) as real && 2.0 * b == (2 * df + 1) as real;
    QuotientIs((2 * n + 2) as real, (2 * df + 1) as real, q + 1.0);
  }

  lemma QuotientIs(a: real, b: real, q: real)
    requires b > 0.0 && q * b == a
    ensures a / b == q
  {
  }

  /** The rarer of two terms weighs strictly more. */
  lemma RarerWeighsMore(docs: seq<Doc>, rare: Term, common: Term, log: real -> real)
    requires IsLog(log)
    requires 0 < DocumentFrequency(docs, rare) < DocumentFrequency(docs, common)
    ensures Idf(docs, rare, log) > Idf(docs, common, log)
  {
    var n, few, many := |docs|, DocumentFrequency(docs, rare), DocumentFrequency(docs, common);
    RarityIsLog(n, few, log);
    RarityIsLog(n, many, log);
    var all, x, y := (2 * n + 2) as real, (2 * few + 1) as real, (2 * many + 1) as real;
    QuotientsFall(all, x, y);
    assert 0.0 < all / y < all / x;
  }

  lemma QuotientsFall(a: real, b: real, c: real)
    requires a > 0.0 && 0.0 < b < c
    ensures 0.0 < a / c < a / b
  {
    var q := a / c;
    assert q * c == a && q > 0.0;
    assert a / b == q * (c / b) && c / b > 1.0;
  }

  lemma QuotientAtMost(a: real, b: real, m: real)
    requires b > 0.0 && a <= m * b
    ensures a / b <= m
  {
    assert a / b <= (m * b) / b;
  }

  lemma DampedBounds(f: real, k: real, norm: real)
    requires f > 0.0 && k > 0.0 && norm >= 0.0
    ensures 0.0 < Damped(f, k, norm) <= k
  {
    assert k * norm >= 0.0;
    assert k * (f + norm) == k * f + k * norm;
    QuotientAtMost(f * k, f + norm, k);
    assert f * k > 0.0;
  }

  lemma WeightBounds(p: Params, idf: real, tf: nat, norm: real)
    requires Sensible(p) && idf >= 0.0 && norm >= 0.0
    ensures 0.0 <= Weight(p, idf, tf, norm) <= idf * (p.k1 + 1.0 + p.delta)
    ensures Weight(p, idf, tf, norm) > 0.0 <==> tf > 0 && idf > 0.0
  {
    if tf > 0 {
      DampedBounds(tf as real, p.k1 + 1.0, norm);
      hide Damped;
      Scaled(idf, Saturation(p, tf, norm) + p.delta, p.k1 + 1.0 + p.delta);
    } else {
      Scaled(idf, 0.0, p.k1 + 1.0 + p.delta);
    }
  }

  lemma Scaled(c: real, x: real, y: real)
    requires c >= 0.0 && 0.0 <= x <= y
    ensures 0.0 <= c * x <= c * y && (x > 0.0 ==> (c * x > 0.0 <==> c > 0.0))
  {
  }

  function Ceiling(p: Params, query: seq<Term>, docs: seq<Doc>, log: real -> real): real {
    if query == [] then 0.0
    else Ceiling(p, query[..|query| - 1], docs, log) + Idf(docs, query[|query| - 1], log) * (p.k1 + 1.0 + p.delta)
  }

  /** A score is between 0 and the sum of idf * (k1 + 1 + delta), and is 0 exactly when no term of
      the query occurs in the document. */
  lemma {:induction false} ScoreBounds(p: Params, query: seq<Term>, docs: seq<Doc>, i: nat, log: real -> real)
    requires Sensible(p) && IsLog(log) && i < |docs|
    ensures 0.0 <= ScoreOf(p, query, docs, i, log) <= Ceiling(p, query, docs, log)
    ensures ScoreOf(p, query, docs, i, log) == 0.0 <==> forall t :: t in query ==> t !in docs[i]
  {
    if query != [] {
      var t, rest := query[|query| - 1], query[..|query| - 1];
      ScoreBounds(p, rest, docs, i, log);
      IdfPositive(docs, t, log);
      AbsentTerm(docs[i], t);
      WeightBounds(p, Idf(docs, t, log), Count(docs[i], t), NormOf(p, docs, i));
      assert query == rest + [t];
      hide Weight, Idf;
      assert t in docs[i] ==> exists j :: 0 <= j < |docs| && t in docs[j];
    }
  }

  /** Scoring is additive over the query. */
  lemma {:induction false} ScoreAdditive(p: Params, first: seq<Term>, second: seq<Term>, docs: seq<Doc>, i: nat, log: real -> real)
    requires Sensible(p) && i < |docs|
    ensures ScoreOf(p, first + second, docs, i, log) == ScoreOf(p, first, docs, i, log) + ScoreOf(p, second, docs, i, log)
  {
    if second == [] {
      assert first + second == first;
    } else {
      var t, rest := second[|second| - 1], second[..|second| - 1];
      ScoreAdditive(p, first, rest, docs, i, log);
      ScoreSnoc(p, first + rest, t, docs, log, docs[i], NormOf(p, docs, i));
      assert first + second == (first + rest) + [t];
    }
  }

  lemma QuotientsOrdered(a: real, b: real, c: real, d: real)
    requires b > 0.0 && d > 0.0
    ensures a / b < c / d <==> a * d < c * b
  {
    assert a / b == (a * d) / (b * d);
    assert c / d == (c * b) / (b * d);
    var x, y := a / b, c / d;
    assert a == x * b && c == y * d;
    assert b * d > 0.0;
    assert a * d == x * (b * d) && c * b == y * (b * d);
    if x < y { StrictlyScaled(x, y, b * d); } else { StrictlyScaled(y, x, b * d); }
  }

  lemma StrictlyScaled(x: real, y: real, c: real)
    requires c > 0.0 && x <= y
    ensures x * c <= y * c && (x < y <==> x * c < y * c)
  {
    assert (y - x) * c >= 0.0;
    assert x < y ==> (y - x) * c > 0.0;
  }

  lemma DampedGrows(f: real, m: real, k: real, norm: real)
    requires 0.0 < f < m && k > 0.0 && norm >= 0.0
    ensures Damped(f, k, norm) <= Damped(m, k, norm) && (Damped(f, k, norm) < Damped(m, k, norm) <==> norm > 0.0)
  {
    QuotientsOrdered(f * k, f + norm, m * k, m + norm);
    QuotientsOrdered(m * k, m + norm, f * k, f + norm);
    assert f * k * (m + norm) == k * f * m + k * norm * f;
    assert m * k * (f + norm) == k * f * m + k * norm * m;
    assert k * norm >= 0.0 && (norm > 0.0 ==> k * norm > 0.0);
    if norm > 0.0 { StrictlyScaled(f, m, k * norm); }
  }

  /** More occurrences weigh strictly more, unless the term occurs already and nothing dampens it. */
  lemma MoreOccurrencesIff(p: Params, idf: real, fewer: nat, more: nat, norm: real)
    requires Sensible(p) && idf > 0.0 && norm >= 0.0 && fewer < more
    ensures Weight(p, idf, fewer, norm) < Weight(p, idf, more, norm) <==> fewer == 0 || norm > 0.0
    ensures Weight(p, idf, fewer, norm) <= Weight(p, idf, more, norm)
  {
    WeightBounds(p, idf, more, norm);
    hide Damped;
    if fewer > 0 {
      DampedGrows(fewer as real, more as real, p.k1 + 1.0, norm);
      StrictlyScaled(Saturation(p, fewer, norm) + p.delta, Saturation(p, more, norm) + p.delta, idf);
    }
  }

  lemma DampedFalls(f: real, k: real, shorter: real, longer: real)
    requires f > 0.0 && k > 0.0 && 0.0 <= shorter <= longer
    ensures Damped(f, k, longer) <= Damped(f, k, shorter)
  {
    assert f * k > 0.0;
    QuotientsOrdered(f * k, f + shorter, f * k, f + longer);
    StrictlyScaled(f + shorter, f + longer, f * k);
  }

  lemma LongerWeighsLess(p: Params, idf: real, tf: nat, shorter: real, longer: real)
    requires Sensible(p) && idf >= 0.0 && 0.0 <= shorter <= longer
    ensures Weight(p, idf, tf, longer) <= Weight(p, idf, tf, shorter)
  {
    if tf > 0 {
      DampedFalls(tf as real, p.k1 + 1.0, shorter, longer);
      hide Damped;
      if idf > 0.0 {
        StrictlyScaled(Saturation(p, tf, longer) + p.delta, Saturation(p, tf, shorter) + p.delta, idf);
      }
    }
  }

  /** At equal length a document that has every query term at least as often scores at least as much. */
  lemma {:induction false} ScoreGrowsWithFrequency(p: Params, query: seq<Term>, docs: seq<Doc>, i: nat, j: nat, log: real -> real)
    requires Sensible(p) && IsLog(log) && i < |docs| && j < |docs| && |docs[i]| == |docs[j]|
    requires forall t :: t in query ==> Count(docs[i], t) <= Count(docs[j], t)
    ensures ScoreOf(p, query, docs, i, log) <= ScoreOf(p, query, docs, j, log)
  {
    if query != [] {
      var t, rest := query[|query| - 1], query[..|query| - 1];
      ScoreGrowsWithFrequency(p, rest, docs, i, j, log);
      var idf, norm := Idf(docs, t, log), NormOf(p, docs, i);
      IdfPositive(docs, t, log);
      assert t in query;
      if idf > 0.0 && Count(docs[i], t) < Count(docs[j], t) {
        MoreOccurrencesIff(p, idf, Count(docs[i], t), Count(docs[j], t), norm);
      } else {
        WeightBounds(p, idf, Count(docs[i], t), norm);
        WeightBounds(p, idf, Count(docs[j], t), norm);
      }
      hide Weight, Idf, NormPositive;
    }
  }

  lemma NormGrows(p: Params, shorter: nat, longer: nat, average: real)
    requires Sensible(p) && average > 0.0 && shorter <= longer
    ensures Norm(p, shorter, average) <= Norm(p, longer, average)
  {
    var x, y := p.b * shorter as real, p.b * longer as real;
    assert x <= y;
    assert x / average <= y / average;
    assert p.k1 * (1.0 - p.b + x / average) <= p.k1 * (1.0 - p.b + y / average);
  }

  /** At equal frequencies the longer document scores at most as much. */
  lemma {:induction false} ScoreFallsWithLength(p: Params, query: seq<Term>, docs: seq<Doc>, i: nat, j: nat, log: real -> real)
    requires Sensible(p) && IsLog(log) && i < |docs| && j < |docs| && |docs[i]| <= |docs[j]|
    requires forall t :: t in query ==> Count(docs[i], t) == Count(docs[j], t)
    ensures ScoreOf(p, query, docs, j, log) <= ScoreOf(p, query, docs, i, log)
  {
    if query != [] {
      var t, rest := query[|query| - 1], query[..|query| - 1];
      ScoreFallsWithLength(p, rest, docs, i, j, log);
      IdfPositive(docs, t, log);
      assert t in query;
      if AverageLength(docs) > 0.0 { NormGrows(p, |docs[i]|, |docs[j]|, AverageLength(docs)); }
      LongerWeighsLess(p, Idf(docs, t, log), Count(docs[i], t), NormOf(p, docs, i), NormOf(p, docs, j));
      hide Weight, Idf, NormPositive;
    }
  }
}
