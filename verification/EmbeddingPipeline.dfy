/**
Batch embedding: route each text by language, deduplicate the English ones by hash, embed, restore, and
scatter the rows back. Embedders, language detector and hash are parameters.
*/
module EmbeddingPipeline {
  import opened Common
  import D = Dedup

  const EMBEDDING_DIM: nat := 256

  type Vec = seq<real>

  const ZERO_ROW: Vec := seq(EMBEDDING_DIM, i => 0.0)

  datatype Lang = English | Other | DetectionFailed

  /** The state of a model when its batch is due: rows come out only when it is `Ready`. */
  datatype Model = Ready | Unavailable

  datatype Env = Env(
    hash: string -> string,
    english: string -> Vec,
    multilingual: string -> Vec,
    detect: Option<string -> Lang>,      // the detector, when it and the multilingual model are installed
    englishModel: Model, multilingualModel: Model,
    suspended: bool,                     // the governor reports battery or emergency
    pressure: bool)                      // memory pressure asks for sequential execution

  predicate IsEnglish(env: Env, text: string) {
    env.detect.None? || env.detect.value(text) != Other
  }

  /** `_normalize_embeddings` on one row. */
  function Fit(v: Vec): (r: Vec)
    ensures |r| == EMBEDDING_DIM
  {
    if |v| > EMBEDDING_DIM then v[..EMBEDDING_DIM] else v + seq(EMBEDDING_DIM - |v|, i => 0.0)
  }

  function Hashes(env: Env, texts: seq<string>): (r: seq<string>)
    ensures |r| == |texts|
  {
    seq(|texts|, i requires 0 <= i < |texts| => env.hash(texts[i]))
  }

  // ---------------------------------------------------------------- English texts

  /**
  `_deduplicate_texts`: the first text of each hash, and for each text the place of its hash's first text.
  Without duplicates the texts themselves come back, and no map.
  */
  method DeduplicateTexts(env: Env, texts: seq<string>) returns (unique: seq<string>, places: seq<nat>, happened: bool)
    ensures happened <==> |D.Firsts(Hashes(env, texts))| < |texts|
    ensures !happened ==> unique == texts && places == []
    ensures happened ==>
      var ks, firsts := Hashes(env, texts), D.Firsts(Hashes(env, texts));
      && |unique| == |firsts|
      && (forall j :: 0 <= j < |unique| ==> firsts[j] < |texts| && unique[j] == texts[firsts[j]])
      && |places| == |texts|
      && forall i :: 0 <= i < |texts| ==> places[i] < |unique| && firsts[places[i]] == D.FirstLike(ks, i)
  {
    unique, places := D.Deduplicate(texts, env.hash, Hashes(env, texts));
    D.FirstsAtMost(Hashes(env, texts));
    if |unique| < |texts| {
      return unique, places, true;
    }
    return texts, [], false;
  }

  /** `_restore_deduplicated_embeddings`. */
  method RestoreEmbeddings(count: nat, rows: seq<Vec>, places: seq<nat>) returns (full: seq<Vec>)
    requires |places| == count && forall i :: 0 <= i < count ==> places[i] < |rows|
    ensures |full| == count && forall i :: 0 <= i < count ==> full[i] == rows[places[i]]
  {
    var buffer := new Vec[count](_ => ZERO_ROW);
    for i := 0 to |places|
      invariant forall j :: 0 <= j < i ==> buffer[j] == rows[places[j]]
    {
      buffer[i] := rows[places[i]];
    }
    full := buffer[..];
  }

  /** `_embed_english_batch`: row `i` is the embedding of the first text with the hash of text `i`. */
  method EmbedEnglishBatch(env: Env, texts: seq<string>) returns (rows: seq<Vec>)
    ensures |rows| == |texts|
    ensures forall i :: 0 <= i < |texts| ==>
      rows[i] == EnglishRow(env, texts, i)
  {
    if texts == [] {
      return [];
    }
    var unique, places, happened := DeduplicateTexts(env, texts);
    if !env.englishModel.Ready? {
      return seq(|texts|, i => ZERO_ROW);
    }
    rows := seq(|unique|, i requires 0 <= i < |unique| => Fit(env.english(unique[i])));
    if happened {
      rows := RestoreEmbeddings(|texts|, rows, places);
    } else {
      D.FirstsAtMost(Hashes(env, texts));
      forall i | 0 <= i < |texts|
        ensures D.FirstLike(Hashes(env, texts), i) == i
      {
        assert D.IsFirst(Hashes(env, texts), i);
        D.FirstUnique(Hashes(env, texts), i, i);
      }
    }
  }

  /** `_embed_multilingual_batch`. */
  method EmbedMultilingualBatch(env: Env, texts: seq<string>) returns (rows: seq<Vec>)
    ensures |rows| == |texts|
    ensures forall i :: 0 <= i < |texts| ==>
      rows[i] == if env.multilingualModel.Ready? then env.multilingual(texts[i]) else ZERO_ROW
  {
    if env.multilingualModel.Unavailable? {
      return seq(|texts|, i => ZERO_ROW);
    }
    rows := seq(|texts|, i requires 0 <= i < |texts| => env.multilingual(texts[i]));
  }

  // ---------------------------------------------------------------- routing

  /** The positions whose text is (or is not) English, in order. */
  function Routed(env: Env, texts: seq<string>, english: bool): seq<nat> {
    if texts == [] then []
    else
      var n := |texts| - 1;
      Routed(env, texts[..n], english) + if IsEnglish(env, texts[n]) == english then [n] else []
  }

  /** The two index lists partition the positions: each is increasing and holds exactly its positions. */
  lemma {:induction false} RoutedMeaning(env: Env, texts: seq<string>, english: bool)
    ensures forall i :: i in Routed(env, texts, english) <==> 0 <= i < |texts| && IsEnglish(env, texts[i]) == english
    ensures forall a, b :: 0 <= a < b < |Routed(env, texts, english)| ==>
      Routed(env, texts, english)[a] < Routed(env, texts, english)[b]
  {
    if texts != [] {
      var n := |texts| - 1;
      var shorter := Routed(env, texts[..n], english);
      RoutedMeaning(env, texts[..n], english);
      forall a, b | 0 <= a < b < |Routed(env, texts, english)|
        ensures Routed(env, texts, english)[a] < Routed(env, texts, english)[b]
      {
        assert shorter[a] in shorter;
      }
    }
  }

  function Select(texts: seq<string>, at: seq<nat>): (r: seq<string>)
    requires forall j :: 0 <= j < |at| ==> at[j] < |texts|
    ensures |r| == |at|
  {
    seq(|at|, j requires 0 <= j < |at| => texts[at[j]])
  }

  ghost predicate Within(at: seq<nat>, n: nat) {
    forall j :: 0 <= j < |at| ==> at[j] < n
  }

  lemma RoutedWithin(env: Env, texts: seq<string>, english: bool)
    ensures Within(Routed(env, texts, english), |texts|)
  {
    RoutedMeaning(env, texts, english);
    forall j | 0 <= j < |Routed(env, texts, english)|
      ensures Routed(env, texts, english)[j] < |texts|
    {
      assert Routed(env, texts, english)[j] in Routed(env, texts, english);
    }
  }

  /** The first English text with the hash of the English text `i`. */
  function Representative(env: Env, texts: seq<string>, i: nat): (f: nat)
    requires i < |texts| && IsEnglish(env, texts[i])
    ensures f <= i && IsEnglish(env, texts[f]) && env.hash(texts[f]) == env.hash(texts[i])
    ensures forall j :: 0 <= j < f ==> !(IsEnglish(env, texts[j]) && env.hash(texts[j]) == env.hash(texts[i]))
  {
    FirstMatch(env, texts, i, 0)
  }

  function FirstMatch(env: Env, texts: seq<string>, i: nat, from: nat): (f: nat)
    requires from <= i < |texts| && IsEnglish(env, texts[i])
    requires forall j :: 0 <= j < from ==> !(IsEnglish(env, texts[j]) && env.hash(texts[j]) == env.hash(texts[i]))
    ensures f <= i && IsEnglish(env, texts[f]) && env.hash(texts[f]) == env.hash(texts[i])
    ensures forall j :: 0 <= j < f ==> !(IsEnglish(env, texts[j]) && env.hash(texts[j]) == env.hash(texts[i]))
    decreases i - from
  {
    if IsEnglish(env, texts[from]) && env.hash(texts[from]) == env.hash(texts[i]) then from
    else FirstMatch(env, texts, i, from + 1)
  }

  /** What row `i` is, whatever the hash does. */
  function Row(env: Env, texts: seq<string>, i: nat): Vec
    requires i < |texts|
  {
    if env.suspended then ZERO_ROW
    else if IsEnglish(env, texts[i]) then
      if env.englishModel.Ready? then Fit(env.english(texts[Representative(env, texts, i)])) else ZERO_ROW
    else
      if env.multilingualModel.Ready? then env.multilingual(texts[i]) else ZERO_ROW
  }

  function Rows(env: Env, texts: seq<string>): (r: seq<Vec>)
    ensures |r| == |texts|
  {
    seq(|texts|, i requires 0 <= i < |texts| => Row(env, texts, i))
  }

  /** `generate_embeddings`, in its parallel and in its sequential form. */
  method GenerateEmbeddings(env: Env, texts: seq<string>) returns (result: seq<Vec>)
    ensures result == Rows(env, texts)
  {
    if texts == [] {
      return [];
    }
    if env.suspended {
      return seq(|texts|, i => ZERO_ROW);
    }
    var englishAt, multilingualAt := Split(env, texts);
    result := EmbedBoth(env, texts, englishAt, multilingualAt);
    forall i | 0 <= i < |texts|
      ensures result[i] == Row(env, texts, i)
    {
      if IsEnglish(env, texts[i]) {
        var a :| 0 <= a < |englishAt| && englishAt[a] == i;
        RepresentativeOfBatch(env, texts, a);
      } else {
        var a :| 0 <= a < |multilingualAt| && multilingualAt[a] == i;
      }
    }
  }

  /** Row `a` of the English batch. */
  function EnglishRow(env: Env, texts: seq<string>, a: nat): Vec
    requires a < |texts|
  {
    if env.englishModel.Ready? then Fit(env.english(texts[D.FirstLike(Hashes(env, texts), a)])) else ZERO_ROW
  }

  /** Embed the two batches, together or one after the other, and scatter their rows. */
  method EmbedBoth(env: Env, texts: seq<string>, englishAt: seq<nat>, multilingualAt: seq<nat>)
    returns (result: seq<Vec>)
    requires Within(englishAt, |texts|) && Within(multilingualAt, |texts|)
    requires Distinct(englishAt) && Distinct(multilingualAt) && forall i :: i in englishAt ==> i !in multilingualAt
    ensures |result| == |texts|
    ensures forall a :: 0 <= a < |englishAt| ==> result[englishAt[a]] == EnglishRow(env, Select(texts, englishAt), a)
    ensures forall a :: 0 <= a < |multilingualAt| ==>
      result[multilingualAt[a]]
        == if env.multilingualModel.Ready? then env.multilingual(texts[multilingualAt[a]]) else ZERO_ROW
  {
    var englishTexts, multilingualTexts := Select(texts, englishAt), Select(texts, multilingualAt);
    var buffer := new Vec[|texts|](_ => ZERO_ROW);
    var englishRows, multilingualRows := [], [];
    if !env.pressure && englishTexts != [] && multilingualTexts != [] {
      englishRows := EmbedEnglishBatch(env, englishTexts);
      multilingualRows := EmbedMultilingualBatch(env, multilingualTexts);
      Scatter(buffer, englishAt, englishRows);
      Scatter(buffer, multilingualAt, multilingualRows);
    } else {
      if englishTexts != [] {
        englishRows := EmbedEnglishBatch(env, englishTexts);
        Scatter(buffer, englishAt, englishRows);
      }
      if multilingualTexts != [] {
        multilingualRows := EmbedMultilingualBatch(env, multilingualTexts);
        Scatter(buffer, multilingualAt, multilingualRows);
      }
    }
    result := buffer[..];
  }

  /** The routing loop. */
  method Split(env: Env, texts: seq<string>) returns (englishAt: seq<nat>, multilingualAt: seq<nat>)
    ensures englishAt == Routed(env, texts, true) && multilingualAt == Routed(env, texts, false)
    ensures Within(englishAt, |texts|) && Within(multilingualAt, |texts|)
    ensures forall i :: i in englishAt <==> 0 <= i < |texts| && IsEnglish(env, texts[i])
    ensures forall i :: i in multilingualAt <==> 0 <= i < |texts| && !IsEnglish(env, texts[i])
    ensures Distinct(englishAt) && Distinct(multilingualAt)
  {
    englishAt, multilingualAt := [], [];
    for i := 0 to |texts|
      invariant englishAt == Routed(env, texts[..i], true) && multilingualAt == Routed(env, texts[..i], false)
    {
      assert texts[..i + 1][..i] == texts[..i];
      if env.detect.None? || env.detect.value(texts[i]) != Other {
        englishAt := englishAt + [i];
      } else {
        multilingualAt := multilingualAt + [i];
      }
    }
    assert texts[..|texts|] == texts;
    RoutedMeaning(env, texts, true);
    RoutedMeaning(env, texts, false);
    RoutedWithin(env, texts, true);
    RoutedWithin(env, texts, false);
  }

  /** Write each row to its position; other positions keep what they have. */
  method Scatter(buffer: array<Vec>, at: seq<nat>, rows: seq<Vec>)
    requires |rows| == |at| && Within(at, buffer.Length)
    requires Distinct(at)
    modifies buffer
    ensures forall a :: 0 <= a < |at| ==> buffer[at[a]] == rows[a]
    ensures forall i :: 0 <= i < buffer.Length && i !in at ==> buffer[i] == old(buffer[i])
  {
    for a := 0 to |at|
      invariant forall b :: 0 <= b < a ==> buffer[at[b]] == rows[b]
      invariant forall i :: 0 <= i < buffer.Length && i !in at[..a] ==> buffer[i] == old(buffer[i])
    {
      assert at[..a + 1] == at[..a] + [at[a]];
      buffer[at[a]] := rows[a];
    }
    assert at[..|at|] == at;
  }

  /** First in the English batch is first among the English texts of the input. */
  lemma RepresentativeOfBatch(env: Env, texts: seq<string>, a: nat)
    requires var at := Routed(env, texts, true);
      Within(at, |texts|) && a < |at| && IsEnglish(env, texts[at[a]])
    ensures var at := Routed(env, texts, true);
      at[D.FirstLike(Hashes(env, Select(texts, at)), a)] == Representative(env, texts, at[a])
  {
    var at := Routed(env, texts, true);
    var ks := Hashes(env, Select(texts, at));
    var f, r := D.FirstLike(ks, a), Representative(env, texts, at[a]);
    RoutedMeaning(env, texts, true);
    assert r in at;
    var b :| 0 <= b < |at| && at[b] == r;
    assert D.IsFirst(ks, b) by {
      forall c | 0 <= c < b
        ensures ks[c] != ks[b]
      {
        assert at[c] < r && at[c] in at;
      }
    }
    D.FirstUnique(ks, a, b);
  }

  // ---------------------------------------------------------------- what a row is

  /** `row` has 256 entries: the first coordinates of `v`, and zeros beyond its end. */
  ghost predicate Fitted(row: Vec, v: Vec) {
    |row| == 256 && forall k :: 0 <= k < 256 ==> row[k] == if k < |v| then v[k] else 0.0
  }

  lemma FitIsFitted(v: Vec)
    ensures Fitted(Fit(v), v) && Fitted(ZERO_ROW, [])
  {
  }

  /** The detector is there and calls the text neither English nor undecidable. */
  ghost predicate Foreign(env: Env, text: string) {
    env.detect.Some? && env.detect.value(text) == Other
  }

  /** `f` is the first text with the hash of text `i` that is not foreign. */
  ghost predicate FirstWithHash(env: Env, texts: seq<string>, f: nat, i: nat)
    requires f < |texts| && i < |texts|
  {
    && env.hash(texts[f]) == env.hash(texts[i])
    && forall j :: 0 <= j < f && env.hash(texts[j]) == env.hash(texts[i]) ==> Foreign(env, texts[j])
  }

  /**
  Every row, for any hash: with the governor asking for rest, or without the model for its language, it is zero.
  Otherwise a foreign text has the multilingual model's row, and any other text the English model's fitted row for
  the first text with its hash that is not foreign.
  */
  lemma RowMeaning(env: Env, texts: seq<string>, i: nat) returns (f: nat)
    requires i < |texts|
    ensures f <= i && Foreign(env, texts[f]) == Foreign(env, texts[i])
    ensures !Foreign(env, texts[i]) ==> FirstWithHash(env, texts, f, i)
    ensures var row, foreign := Rows(env, texts)[i], Foreign(env, texts[i]);
      if env.suspended then Fitted(row, [])
      else if (if foreign then env.multilingualModel else env.englishModel).Unavailable? then Fitted(row, [])
      else if foreign then row == env.multilingual(texts[i])
      else Fitted(row, env.english(texts[f]))
  {
    FitIsFitted([]);
    if IsEnglish(env, texts[i]) {
      f := Representative(env, texts, i);
      FitIsFitted(env.english(texts[f]));
    } else {
      f := i;
    }
  }

  // ---------------------------------------------------------------- refinement of the per-text map

  /** Embedding a text alone, by the model it is routed to. */
  function PerText(env: Env, text: string): Vec {
    if IsEnglish(env, text) then Fit(env.english(text)) else env.multilingual(text)
  }

  ghost predicate Working(env: Env) {
    !env.suspended && env.englishModel.Ready? && env.multilingualModel.Ready?
  }

  ghost predicate Collide(env: Env, a: string, b: string) {
    IsEnglish(env, a) && IsEnglish(env, b) && env.hash(a) == env.hash(b)
  }

  /** No two different English texts of the input have the same hash. */
  ghost predicate NoCollision(env: Env, texts: seq<string>) {
    forall i, j :: 0 <= i < |texts| && 0 <= j < |texts| && Collide(env, texts[i], texts[j]) ==> texts[i] == texts[j]
  }

  ghost predicate RefinesPerText(env: Env, texts: seq<string>) {
    forall i :: 0 <= i < |texts| ==> Rows(env, texts)[i] == PerText(env, texts[i])
  }

  /**
  With working models, the batch equals embedding each text alone for every English embedder exactly when the
  deduplication hash does not collide on the English texts of the input.
  */
  lemma BatchRefinesPerText(env: Env, texts: seq<string>)
    requires Working(env)
    ensures NoCollision(env, texts) <==> forall english :: RefinesPerText(env.(english := english), texts)
  {
    if NoCollision(env, texts) {
      forall english
        ensures RefinesPerText(env.(english := english), texts)
      {
        var e := env.(english := english);
        forall i | 0 <= i < |texts|
          ensures Rows(e, texts)[i] == PerText(e, texts[i])
        {
          if IsEnglish(e, texts[i]) {
            var f := Representative(e, texts, i);
            assert Collide(env, texts[f], texts[i]);
          }
        }
      }
    } else {
      var i, j :| 0 <= i < |texts| && 0 <= j < |texts| && Collide(env, texts[i], texts[j]) && texts[i] != texts[j];
      CollisionBreaksRefinement(env, texts, i, j);
    }
  }

  lemma CollisionBreaksRefinement(env: Env, texts: seq<string>, i: nat, j: nat)
    requires Working(env) && i < |texts| && j < |texts| && Collide(env, texts[i], texts[j]) && texts[i] != texts[j]
    ensures exists english :: !RefinesPerText(env.(english := english), texts)
  {
    var f := Representative(env, texts, i);
    var k := if texts[f] == texts[i] then j else i;
    var english := (text: string) => if text == texts[f] then [1.0] else [0.0];
    var e := env.(english := english);
    assert Representative(e, texts, k) == f;
    assert Fit([1.0])[0] == 1.0 && Fit([0.0])[0] == 0.0;
    assert Rows(e, texts)[k] == Fit([1.0]) && PerText(e, texts[k]) == Fit([0.0]);
    assert !RefinesPerText(e, texts);
  }
}
