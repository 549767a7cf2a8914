/**
Semantic deduplication: the batch check over unique texts, and the embedding cache bounded by entries and bytes.
*/
module SemanticDedup {
  import opened Common
  import D = Dedup
  import L = Lru

  type Sim = (string, string) -> real

  /** What a batch check reports for text `i`: the first occurrences of the texts similar to it, itself excepted. */
  ghost function Duplicates(texts: seq<string>, sim: Sim, threshold: real, i: nat): set<nat>
    requires i < |texts|
  {
    set u: nat | u < |texts| && D.IsFirst(texts, u) && sim(texts[i], texts[u]) >= threshold && u != i
  }

  /** The positions of `t`, in order. */
  function Positions(texts: seq<string>, t: string): seq<nat> {
    if texts == [] then []
    else Positions(texts[..|texts| - 1], t) + if texts[|texts| - 1] == t then [|texts| - 1] else []
  }

  lemma {:induction false} PositionsMeaning(texts: seq<string>, t: string)
    ensures forall p :: p in Positions(texts, t) <==> 0 <= p < |texts| && texts[p] == t
    ensures forall a, b :: 0 <= a < b < |Positions(texts, t)| ==> Positions(texts, t)[a] < Positions(texts, t)[b]
  {
    if texts != [] {
      var before := Positions(texts[..|texts| - 1], t);
      PositionsMeaning(texts[..|texts| - 1], t);
      assert forall a :: 0 <= a < |before| ==> before[a] in before;
    }
  }

  /** A text's first position leads the list of its positions. */
  lemma {:induction false} FirstLeads(texts: seq<string>, f: nat)
    requires D.IsFirst(texts, f)
    ensures Positions(texts, texts[f]) != [] && Positions(texts, texts[f])[0] == f
  {
    var all := Positions(texts, texts[f]);
    PositionsMeaning(texts, texts[f]);
    assert f in all && all[0] in all;
    forall p | 0 <= p < f
      ensures texts[p] != texts[f]
    {
      assert texts[..f][p] == texts[p];
    }
  }

  /** The lists of positions in the first `n` texts. */
  ghost predicate Grouped(texts: seq<string>, n: nat, unique: seq<string>, originals: seq<seq<nat>>)
    requires n <= |texts|
  {
    |unique| == |originals| && forall j :: 0 <= j < |unique| ==> originals[j] == Positions(texts[..n], unique[j])
  }

  lemma {:induction false} PositionsNext(texts: seq<string>, n: nat, t: string)
    requires n < |texts|
    ensures Positions(texts[..n + 1], t) == Positions(texts[..n], t) + if texts[n] == t then [n] else []
  {
    assert texts[..n + 1][..n] == texts[..n];
  }

  lemma {:induction false} GroupedNew(texts: seq<string>, n: nat, unique: seq<string>, originals: seq<seq<nat>>)
    requires n < |texts| && Grouped(texts, n, unique, originals) && texts[n] !in unique && texts[n] !in texts[..n]
    ensures Grouped(texts, n + 1, unique + [texts[n]], originals + [[n]])
  {
    NoPositions(texts[..n], texts[n]);
    forall t {
      PositionsNext(texts, n, t);
    }
  }

  lemma GroupedAgain(texts: seq<string>, n: nat, unique: seq<string>, originals: seq<seq<nat>>, k: nat)
    requires n < |texts| && Grouped(texts, n, unique, originals) && k < |unique| && unique[k] == texts[n]
    requires Distinct(unique)
    ensures Grouped(texts, n + 1, unique, originals[k := originals[k] + [n]])
  {
    forall t {
      PositionsNext(texts, n, t);
    }
  }

  lemma {:induction false} NoPositions(texts: seq<string>, t: string)
    requires t !in texts
    ensures Positions(texts, t) == []
  {
    if texts != [] {
      NoPositions(texts[..|texts| - 1], t);
    }
  }

  /** Where the unique texts are: `seen` finds the place of each, and they are the texts at their first positions. */
  ghost predicate Places(texts: seq<string>, n: nat, unique: seq<string>, seen: map<string, nat>, firsts: seq<nat>)
    requires n <= |texts|
  {
    && |unique| == |firsts| && firsts == D.Firsts(texts[..n])
    && (forall j :: 0 <= j < |unique| ==>
          firsts[j] < n && unique[j] == texts[firsts[j]] && unique[j] in seen && seen[unique[j]] == j)
    && (forall k :: k in seen ==> seen[k] < |unique| && unique[seen[k]] == k)
  }

  lemma PlacesNew(texts: seq<string>, n: nat, unique: seq<string>, seen: map<string, nat>, firsts: seq<nat>)
    requires n < |texts| && Places(texts, n, unique, seen, firsts) && texts[n] !in seen && texts[n] !in texts[..n]
    ensures Places(texts, n + 1, unique + [texts[n]], seen[texts[n] := |unique|], firsts + [n])
  {
    assert texts[..n + 1][..n] == texts[..n];
  }

  lemma PlacesAgain(texts: seq<string>, n: nat, unique: seq<string>, seen: map<string, nat>, firsts: seq<nat>)
    requires n < |texts| && Places(texts, n, unique, seen, firsts) && texts[n] in seen
    ensures Places(texts, n + 1, unique, seen, firsts)
  {
    assert texts[..n + 1][..n] == texts[..n];
    assert texts[firsts[seen[texts[n]]]] in texts[..n];
  }

  /**
  `_deduplicate_texts`: the unique texts, the place of each text's unique text, and all positions of each unique text.
  */
  method DeduplicateTexts(texts: seq<string>)
    returns (unique: seq<string>, indexMap: seq<nat>, originals: seq<seq<nat>>)
    ensures |unique| == |originals| == |D.Firsts(texts)| && |indexMap| == |texts|
    ensures forall j :: 0 <= j < |unique| ==> originals[j] == Positions(texts, unique[j])
    ensures forall j :: 0 <= j < |unique| ==> originals[j] != [] && originals[j][0] == D.Firsts(texts)[j]
    ensures forall j :: 0 <= j < |unique| ==> D.Firsts(texts)[j] < |texts| && unique[j] == texts[D.Firsts(texts)[j]]
    ensures forall i :: 0 <= i < |texts| ==> indexMap[i] < |unique| && unique[indexMap[i]] == texts[i]
  {
    var seen: map<string, nat> := map[];
    unique, indexMap, originals := [], [], [];
    ghost var firsts: seq<nat> := [];
    for i := 0 to |texts|
      invariant Places(texts, i, unique, seen, firsts) && Grouped(texts, i, unique, originals) && |indexMap| == i
      invariant forall j :: 0 <= j < i ==> texts[j] in seen && indexMap[j] == seen[texts[j]]
    {
      var t := texts[i];
      if t !in seen {
        GroupedNew(texts, i, unique, originals);
        PlacesNew(texts, i, unique, seen, firsts);
        seen := seen[t := |unique|];
        unique, originals, firsts := unique + [t], originals + [[i]], firsts + [i];
      } else {
        GroupedAgain(texts, i, unique, originals, seen[t]);
        PlacesAgain(texts, i, unique, seen, firsts);
        originals := originals[seen[t] := originals[seen[t]] + [i]];
      }
      indexMap := indexMap + [seen[t]];
    }
    assert texts[..|texts|] == texts;
    D.FirstsMeaning(texts);
    forall j | 0 <= j < |unique|
      ensures originals[j] != [] && originals[j][0] == firsts[j]
    {
      FirstLeads(texts, firsts[j]);
    }
  }

  /** `_compute_similarities` for one text: the first positions of the unique texts similar to it, itself excepted. */
  method SimilarTo(texts: seq<string>, sim: Sim, threshold: real, i: nat, unique: seq<string>, canonical: seq<nat>)
    returns (r: set<nat>)
    requires i < |texts| && |unique| == |canonical| && canonical == D.Firsts(texts)
    requires forall j :: 0 <= j < |unique| ==> canonical[j] < |texts| && unique[j] == texts[canonical[j]]
    ensures r == Duplicates(texts, sim, threshold, i)
  {
    r := {};
    for j := 0 to |unique|
      invariant forall u :: u in r <==>
        exists a :: 0 <= a < j && canonical[a] == u && sim(texts[i], unique[a]) >= threshold && u != i
    {
      ghost var before := r;
      if sim(texts[i], unique[j]) >= threshold && canonical[j] != i {
        r := r + {canonical[j]};
      }
      assert forall u :: u in r <==>
        u in before || (u == canonical[j] && sim(texts[i], unique[j]) >= threshold && u != i);
    }
    forall u
      ensures u in r <==> u in Duplicates(texts, sim, threshold, i)
    {
      CanonicalSimilar(texts, sim, threshold, i, unique, canonical, u);
    }
  }

  /** The unique texts similar to text `i`, by their first positions. */
  lemma {:induction false} CanonicalSimilar(texts: seq<string>, sim: Sim, threshold: real, i: nat, unique: seq<string>,
      canonical: seq<nat>, u: nat)
    requires i < |texts| && |unique| == |canonical| && canonical == D.Firsts(texts)
    requires forall j :: 0 <= j < |unique| ==> canonical[j] < |texts| && unique[j] == texts[canonical[j]]
    ensures u in Duplicates(texts, sim, threshold, i)
       <==> exists a :: 0 <= a < |unique| && canonical[a] == u && sim(texts[i], unique[a]) >= threshold && u != i
  {
    D.FirstsMeaning(texts);
    if a :| 0 <= a < |unique| && canonical[a] == u {
      assert D.IsFirst(texts, canonical[a]);
    } else {
      assert u !in canonical;
      assert !D.IsFirst(texts, u);
    }
  }

  /** What the shortcut for a single unique text reports. */
  function Shortcut(i: nat): set<nat> {
    if i == 0 then {} else {0}
  }

  /** What `check_batch` reports for text `i` in all its cases. */
  ghost function Reported(texts: seq<string>, sim: Sim, threshold: real, memory: bool, embeds: bool, i: nat): set<nat>
    requires i < |texts|
  {
    if !memory then {}
    else if |D.Firsts(texts)| == 1 then Shortcut(i)
    else if embeds then Duplicates(texts, sim, threshold, i)
    else {}
  }

  /** `check_batch`. `memory`: the memory guard lets it run; `embeds`: the embedder gives rows. */
  method CheckBatch(texts: seq<string>, sim: Sim, threshold: real, memory: bool, embeds: bool)
    returns (r: seq<set<nat>>)
    ensures |r| == |texts|
    ensures forall i :: 0 <= i < |texts| ==> r[i] == Reported(texts, sim, threshold, memory, embeds, i)
    ensures !memory ==> forall i :: 0 <= i < |texts| ==> r[i] == {}
    ensures memory && !embeds && |D.Firsts(texts)| != 1 ==> forall i :: 0 <= i < |texts| ==> r[i] == {}
    ensures memory && embeds && |D.Firsts(texts)| != 1 ==>
      forall i :: 0 <= i < |texts| ==> r[i] == Duplicates(texts, sim, threshold, i)
  {
    if texts == [] {
      return [];
    }
    r := seq(|texts|, i => {});
    if !memory {
      return;
    }
    var unique, indexMap, originals := DeduplicateTexts(texts);
    if |unique| == 1 {
      r := ShortcutReport(|texts|);
    } else if embeds {
      var canonical := seq(|originals|, j requires 0 <= j < |originals| => originals[j][0]);
      r := GeneralReport(texts, sim, threshold, unique, canonical);
    }
  }

  /** The shortcut: everything is a duplicate of the first text. */
  method ShortcutReport(n: nat) returns (r: seq<set<nat>>)
    requires n >= 1
    ensures |r| == n && forall j :: 0 <= j < n ==> r[j] == Shortcut(j)
  {
    r := seq(n, i => {});
    for i := 1 to n
      invariant |r| == n && forall j :: 0 <= j < n ==> r[j] == if j < i then Shortcut(j) else {}
    {
      r := r[i := r[i] + {0}];
    }
  }

  /** `_compute_similarities` for all texts. */
  method GeneralReport(texts: seq<string>, sim: Sim, threshold: real, unique: seq<string>, canonical: seq<nat>)
    returns (r: seq<set<nat>>)
    requires |unique| == |canonical| && canonical == D.Firsts(texts)
    requires forall j :: 0 <= j < |unique| ==> canonical[j] < |texts| && unique[j] == texts[canonical[j]]
    ensures |r| == |texts| && forall j :: 0 <= j < |texts| ==> r[j] == Duplicates(texts, sim, threshold, j)
  {
    r := [];
    for i := 0 to |texts|
      invariant |r| == i && forall j :: 0 <= j < i ==> r[j] == Duplicates(texts, sim, threshold, j)
    {
      var similar := SimilarTo(texts, sim, threshold, i, unique, canonical);
      r := r + [similar];
    }
  }

  lemma {:induction false} OneUniqueText(texts: seq<string>)
    requires |D.Firsts(texts)| == 1
    ensures texts != [] && forall u :: D.IsFirst(texts, u) <==> u == 0
    ensures forall i :: 0 <= i < |texts| ==> texts[i] == texts[0]
  {
    D.FirstsMeaning(texts);
    assert texts != [] && D.IsFirst(texts, 0);
    forall u | D.IsFirst(texts, u)
      ensures u == 0
    {
      assert u in D.Firsts(texts) && 0 in D.Firsts(texts);
    }
    forall i | 0 <= i < |texts|
      ensures texts[i] == texts[0]
    {
      assert D.IsFirst(texts, D.FirstLike(texts, i));
    }
  }

  /** With one unique text the shortcut agrees with the general path exactly if it is similar to itself or alone. */
  lemma {:induction false} ShortcutAgrees(texts: seq<string>, sim: Sim, threshold: real)
    requires |D.Firsts(texts)| == 1
    ensures (forall i :: 0 <= i < |texts| ==> Shortcut(i) == Duplicates(texts, sim, threshold, i))
       <==> |texts| == 1 || sim(texts[0], texts[0]) >= threshold
  {
    OneUniqueText(texts);
    forall i | 0 <= i < |texts|
      ensures Duplicates(texts, sim, threshold, i) == if i != 0 && sim(texts[0], texts[0]) >= threshold then {0} else {}
    {
    }
    if |texts| > 1 && sim(texts[0], texts[0]) < threshold {
      assert Shortcut(1) != Duplicates(texts, sim, threshold, 1);
    }
  }

  /** Between first occurrences a symmetric similarity gives a symmetric report; a repeated text is never reported. */
  lemma {:induction false} ReportIsSymmetric(texts: seq<string>, sim: Sim, threshold: real, i: nat, j: nat)
    requires i < |texts| && j < |texts| && sim(texts[i], texts[j]) == sim(texts[j], texts[i])
    ensures D.IsFirst(texts, i) && D.IsFirst(texts, j) ==>
      (j in Duplicates(texts, sim, threshold, i) <==> i in Duplicates(texts, sim, threshold, j))
    ensures !D.IsFirst(texts, j) ==> j !in Duplicates(texts, sim, threshold, i)
  {
  }

  /** A repeated text is reported what its first occurrence is, and the first occurrence itself. */
  lemma {:induction false} RepeatedTextReports(texts: seq<string>, sim: Sim, threshold: real, i: nat)
    requires i < |texts| && !D.IsFirst(texts, i) && sim(texts[i], texts[i]) >= threshold
    ensures var f := D.FirstLike(texts, i);
      Duplicates(texts, sim, threshold, i) == Duplicates(texts, sim, threshold, f) + {f}
  {
    var f := D.FirstLike(texts, i);
    assert texts[f] == texts[i] && f != i;
  }

  // ---------------------------------------------------------------- the cache

  const MAX_CACHE_ITEMS: nat := 512
  const MAX_CACHE_BYTES: nat := 256 * 1024 * 1024
  const EMBEDDING_BYTES: nat := 256 * 4

  /** The bytes of the keys' entries, when `size` is the UTF-8 length of a text. */
  function Bytes(size: string -> nat, keys: seq<string>): nat {
    if keys == [] then 0 else size(keys[0]) + EMBEDDING_BYTES + Bytes(size, keys[1..])
  }

  /** What is left when the oldest entries go until `text` fits. */
  function Kept(size: string -> nat, keys: seq<string>, text: string): seq<string> {
    if keys != [] && (|keys| >= MAX_CACHE_ITEMS || Bytes(size, keys) + size(text) + EMBEDDING_BYTES > MAX_CACHE_BYTES)
    then Kept(size, keys[1..], text) else keys
  }

  function Added(size: string -> nat, keys: seq<string>, text: string): seq<string> {
    L.Touch(Kept(size, keys, text), text)
  }

  lemma {:induction false} BytesConcat(size: string -> nat, a: seq<string>, b: seq<string>)
    ensures Bytes(size, a + b) == Bytes(size, a) + Bytes(size, b)
  {
    if a == [] {
      assert a + b == b;
    } else {
      assert (a + b)[1..] == a[1..] + b;
      BytesConcat(size, a[1..], b);
    }
  }

  lemma BytesTouch(size: string -> nat, keys: seq<string>, text: string)
    requires Distinct(keys)
    ensures Bytes(size, L.Touch(keys, text))
         == Bytes(size, keys) + if text in keys then 0 else size(text) + EMBEDDING_BYTES
    ensures |L.Touch(keys, text)| == |keys| + if text in keys then 0 else 1
  {
    BytesConcat(size, Remove(keys, text), [text]);
    assert Bytes(size, [text]) == size(text) + EMBEDDING_BYTES;
    if text in keys {
      var i :| 0 <= i < |keys| && keys[i] == text;
      RemoveAt(keys, i);
      BytesConcat(size, keys[..i], keys[i + 1..]);
      BytesConcat(size, keys[..i], [text] + keys[i + 1..]);
      BytesConcat(size, [text], keys[i + 1..]);
      assert keys == keys[..i] + ([text] + keys[i + 1..]);
    } else {
      RemoveAbsent(keys, text);
    }
  }

  lemma {:induction false} KeptMeaning(size: string -> nat, keys: seq<string>, text: string)
    requires Distinct(keys)
    ensures var kept := Kept(size, keys, text);
      && Distinct(kept) && (forall k :: k in kept ==> k in keys)
      && (kept == []
          || (|kept| < MAX_CACHE_ITEMS && Bytes(size, kept) + size(text) + EMBEDDING_BYTES <= MAX_CACHE_BYTES))
  {
    if keys != [] && (|keys| >= MAX_CACHE_ITEMS || Bytes(size, keys) + size(text) + EMBEDDING_BYTES > MAX_CACHE_BYTES) {
      KeptMeaning(size, keys[1..], text);
    }
  }

  /** Within both bounds, or down to a single entry that is too large by itself. */
  ghost predicate Bounded(size: string -> nat, keys: seq<string>) {
    Distinct(keys) && |keys| <= MAX_CACHE_ITEMS && (Bytes(size, keys) <= MAX_CACHE_BYTES || |keys| == 1)
  }

  /** Every addition ends within the bounds, with the added text the most recent. */
  lemma AdditionIsBounded(size: string -> nat, keys: seq<string>, text: string)
    requires Distinct(keys)
    ensures Bounded(size, Added(size, keys, text))
    ensures Added(size, keys, text)[|Added(size, keys, text)| - 1] == text
    ensures forall k :: k in Added(size, keys, text) ==> k in keys || k == text
  {
    KeptMeaning(size, keys, text);
    var kept := Kept(size, keys, text);
    BytesTouch(size, kept, text);
    TouchDistinct(kept, text);
    L.TouchElements(kept, text);
  }

  // ---------------------------------------------------------------- whole histories of the cache

  datatype Use<V> = Add(text: string, emb: V) | Lookup(text: string)

  function AfterUse<V>(size: string -> nat, c: L.Cache<string, V>, use: Use<V>): L.Cache<string, V> {
    match use
    case Add(text, emb) =>
      L.Cache(Added(size, c.keys, text), L.Restricted(c.vals, Kept(size, c.keys, text))[text := emb])
    case Lookup(text) => L.ApplyGet(c, text)
  }

  function Used<V>(size: string -> nat, uses: seq<Use<V>>): L.Cache<string, V> {
    if uses == [] then L.Cache([], map[]) else AfterUse(size, Used(size, uses[..|uses| - 1]), uses[|uses| - 1])
  }

  /** The texts added or found, in order. */
  function Touched<V>(size: string -> nat, uses: seq<Use<V>>): seq<string> {
    if uses == [] then []
    else
      var before, use := uses[..|uses| - 1], uses[|uses| - 1];
      Touched(size, before) + if use.Add? || use.text in Used(size, before).vals then [use.text] else []
  }

  function LatestAdd<V>(uses: seq<Use<V>>, text: string): Option<V> {
    if uses == [] then None
    else
      var use := uses[|uses| - 1];
      if use.Add? && use.text == text then Some(use.emb) else LatestAdd(uses[..|uses| - 1], text)
  }

  predicate Fits(size: string -> nat, keys: seq<string>, text: string) {
    |keys| < MAX_CACHE_ITEMS && Bytes(size, keys) + size(text) + EMBEDDING_BYTES <= MAX_CACHE_BYTES
  }

  /** Eviction stops as early as it can: what is kept is the longest end of the order that fits beside `text`. */
  lemma {:induction false} KeptIsLongestThatFits(size: string -> nat, keys: seq<string>, text: string)
    returns (gone: nat)
    ensures gone <= |keys| && Kept(size, keys, text) == keys[gone..]
    ensures gone < |keys| ==> Fits(size, keys[gone..], text)
    ensures forall d :: 0 <= d < gone ==> !Fits(size, keys[d..], text)
  {
    gone := 0;
    if keys != [] && !Fits(size, keys, text) {
      gone := KeptIsLongestThatFits(size, keys[1..], text);
      gone := gone + 1;
      forall d | 0 <= d < gone
        ensures !Fits(size, keys[d..], text)
      {
        if d > 0 {
          assert keys[d..] == keys[1..][d - 1..];
        }
      }
    }
  }

  /** Nothing goes as long as there are fewer than 512 entries and all fit into 256 MB together. */
  lemma NothingGoesWhileItFits(size: string -> nat, keys: seq<string>, text: string)
    ensures |keys| < 512 && Bytes(size, keys) + size(text) + 1024 <= 268435456 ==>
      Added(size, keys, text) == L.Touch(keys, text)
  {
  }

  /**
  Adding a text that is cached already needs no room, and yet it can evict others: none goes if and only if a
  further entry of its size would fit as well, or the text was the oldest.
  */
  lemma RefreshKeepsAllIffItFits(size: string -> nat, keys: seq<string>, text: string)
    requires Bounded(size, keys) && text in keys
    ensures Added(size, keys, text) == L.Touch(keys, text) <==> Fits(size, keys, text) || keys[0] == text
  {
    var gone := KeptIsLongestThatFits(size, keys, text);
    var kept := keys[gone..];
    KeptMeaning(size, keys, text);
    BytesTouch(size, kept, text);
    BytesTouch(size, keys, text);
    if gone == 0 {
      assert kept == keys;
    } else if keys[0] == text {
      assert keys[1..] != [] ==> Fits(size, keys[1..], text);
      assert keys == [text] + keys[1..];
      RemoveAt(keys, 0);
      RemoveAbsent(keys[1..], text);
    } else if text !in kept {
      assert gone >= 2;
    }
  }

  /** In a full cache, whatever the sizes, refreshing any text but the oldest evicts the oldest. */
  lemma RefreshOfFullCacheEvicts(size: string -> nat, keys: seq<string>, i: nat)
    requires Bounded(size, keys) && |keys| == MAX_CACHE_ITEMS && 0 < i < |keys|
    ensures keys[0] !in Added(size, keys, keys[i])
  {
    var gone := KeptIsLongestThatFits(size, keys, keys[i]);
    assert gone > 0 && keys[0] !in keys[gone..];
    L.TouchElements(keys[gone..], keys[i]);
  }

  /** Texts of all lengths below `n`. */
  function Ladder(n: nat): (r: seq<string>)
    ensures |r| == n
  {
    seq(n, i requires 0 <= i < n => seq(i, j => 'x'))
  }

  lemma {:induction false} SmallTexts(size: string -> nat, keys: seq<string>, most: nat)
    requires forall i :: 0 <= i < |keys| ==> size(keys[i]) <= most
    ensures Bytes(size, keys) <= |keys| * (most + EMBEDDING_BYTES)
  {
    if keys != [] {
      SmallTexts(size, keys[1..], most);
    }
  }

  /** Such a cache: 512 short texts, of which the one in second place is refreshed. */
  lemma RefreshCanEvict(size: string -> nat)
    requires forall s :: size(s) == |s|
    ensures var keys := Ladder(MAX_CACHE_ITEMS); Bounded(size, keys) && keys[0] !in Added(size, keys, keys[1])
  {
    var keys := Ladder(MAX_CACHE_ITEMS);
    forall i, j | 0 <= i < j < |keys|
      ensures keys[i] != keys[j]
    {
      assert |keys[i]| == i && |keys[j]| == j;
    }
    SmallTexts(size, keys, MAX_CACHE_ITEMS);
    RefreshOfFullCacheEvicts(size, keys, 1);
  }

  /** The end of a recency order that is kept stays one when a text is touched. */
  lemma EndStaysEnd(order: seq<string>, end: seq<string>, text: string)
    requires Distinct(order) && end == LastN(order, |end|)
    ensures L.Touch(end, text) == LastN(L.Touch(order, text), |L.Touch(end, text)|)
  {
    assert |end| <= |order|;
    var gone := order[..|order| - |end|];
    assert order == gone + end;
    L.TouchSplit(gone, end, text);
    if text !in end {
      RemoveAbsent(end, text);
    }
  }

  /** The cache holds the most recently touched texts, in order of last touch, each with the embedding last added. */
  ghost predicate HoldsRecent<V>(size: string -> nat, uses: seq<Use<V>>, c: L.Cache<string, V>) {
    && Bounded(size, c.keys) && L.Valid(c)
    && c.keys == LastN(L.Recency(Touched(size, uses)), |c.keys|)
    && forall k :: k in c.vals ==> LatestAdd(uses, k) == Some(c.vals[k])
  }

  lemma UseKeepsValid<V>(size: string -> nat, c: L.Cache<string, V>, use: Use<V>)
    requires Bounded(size, c.keys) && L.Valid(c)
    ensures Bounded(size, AfterUse(size, c, use).keys) && L.Valid(AfterUse(size, c, use))
  {
    match use
    case Add(text, emb) =>
      AdditionIsBounded(size, c.keys, text);
      KeptMeaning(size, c.keys, text);
      L.TouchElements(Kept(size, c.keys, text), text);
    case Lookup(text) =>
      if text in c.vals {
        BytesTouch(size, c.keys, text);
        TouchDistinct(c.keys, text);
        L.TouchElements(c.keys, text);
      }
  }

  lemma UseKeepsRecent<V>(size: string -> nat, order: seq<string>, c: L.Cache<string, V>, use: Use<V>)
    requires Distinct(order) && c.keys == LastN(order, |c.keys|)
    ensures var d, touched := AfterUse(size, c, use), use.Add? || use.text in c.vals;
      d.keys == LastN(if touched then L.Touch(order, use.text) else order, |d.keys|)
  {
    match use
    case Add(text, emb) =>
      var gone := KeptIsLongestThatFits(size, c.keys, text);
      var kept := c.keys[gone..];
      assert |c.keys| <= |order| && c.keys == order[|order| - |c.keys|..];
      assert kept == LastN(order, |kept|);
      EndStaysEnd(order, kept, text);
    case Lookup(text) =>
      EndStaysEnd(order, c.keys, text);
  }

  lemma {:induction false} UsedIsValid<V>(size: string -> nat, uses: seq<Use<V>>)
    ensures Bounded(size, Used(size, uses).keys) && L.Valid(Used(size, uses))
  {
    if uses != [] {
      UsedIsValid(size, uses[..|uses| - 1]);
      UseKeepsValid(size, Used(size, uses[..|uses| - 1]), uses[|uses| - 1]);
    }
  }

  lemma {:induction false} KeysAreRecent<V>(size: string -> nat, uses: seq<Use<V>>)
    ensures Used(size, uses).keys == LastN(L.Recency(Touched(size, uses)), |Used(size, uses).keys|)
  {
    if uses != [] {
      var before, use := uses[..|uses| - 1], uses[|uses| - 1];
      var t := Touched(size, before);
      KeysAreRecent(size, before);
      L.RecencyMeaning(t);
      UseKeepsRecent(size, L.Recency(t), Used(size, before), use);
      L.RecencyNext(t, use.text);
      assert t + [] == t;
    }
  }

  lemma {:induction false} EmbeddingsAreLatest<V>(size: string -> nat, uses: seq<Use<V>>, k: string)
    requires k in Used(size, uses).vals
    ensures LatestAdd(uses, k) == Some(Used(size, uses).vals[k])
  {
    var use := uses[|uses| - 1];
    if !(use.Add? && use.text == k) {
      EmbeddingsAreLatest(size, uses[..|uses| - 1], k);
    }
  }

  /**
  After any history of additions and lookups the cached texts are the most recently touched ones, in order of
  last touch and within the bounds, each with the embedding last added for it.
  */
  lemma {:induction false} CacheHoldsMostRecent<V>(size: string -> nat, uses: seq<Use<V>>)
    ensures HoldsRecent(size, uses, Used(size, uses))
  {
    UsedIsValid(size, uses);
    KeysAreRecent(size, uses);
    forall k | k in Used(size, uses).vals
      ensures LatestAdd(uses, k) == Some(Used(size, uses).vals[k])
    {
      EmbeddingsAreLatest(size, uses, k);
    }
  }

  class SemanticDedupCache<V> {
    const size: string -> nat
    var keys: seq<string>
    var vals: map<string, V>
    var memoryBytes: int

    ghost function Abs(): L.Cache<string, V>
      reads this
    {
      L.Cache(keys, vals)
    }

    /** The byte count is exact and the bounds hold. */
    ghost predicate Valid()
      reads this
    {
      && Bounded(size, keys) && memoryBytes == Bytes(size, keys)
      && (forall k :: k in keys ==> k in vals) && (forall k :: k in vals ==> k in keys)
    }

    constructor (size: string -> nat)
      ensures Valid() && keys == [] && this.size == size
    {
      this.size := size;
      keys, vals, memoryBytes := [], map[], 0;
    }

    method EvictIfNeeded(text: string)
      requires Distinct(keys) && memoryBytes == Bytes(size, keys)
      modifies this
      ensures keys == Kept(size, old(keys), text) && memoryBytes == Bytes(size, keys)
      ensures Distinct(keys) && vals == L.Restricted(old(vals), keys)
    {
      var needed := size(text) + EMBEDDING_BYTES;
      vals := L.Restricted(vals, keys);
      while keys != [] && (|keys| >= MAX_CACHE_ITEMS || memoryBytes + needed > MAX_CACHE_BYTES)
        invariant Distinct(keys) && memoryBytes == Bytes(size, keys) && (forall k :: k in keys ==> k in old(keys))
        invariant Kept(size, keys, text) == Kept(size, old(keys), text)
        invariant vals == L.Restricted(old(vals), keys)
        decreases |keys|
      {
        var oldest := keys[0];
        memoryBytes := memoryBytes - (size(oldest) + EMBEDDING_BYTES);
        keys, vals := keys[1..], vals - {oldest};
      }
    }

    method AddToCache(text: string, emb: V)
      requires Valid()
      modifies this
      ensures Valid() && Abs() == AfterUse(size, old(Abs()), Add(text, emb))
    {
      AdditionIsBounded(size, keys, text);
      KeptMeaning(size, keys, text);
      EvictIfNeeded(text);
      BytesTouch(size, keys, text);
      L.TouchElements(keys, text);
      if text in vals {
        keys, vals := L.Touch(keys, text), vals[text := emb];
      } else {
        RemoveAbsent(keys, text);
        keys, vals := keys + [text], vals[text := emb];
        memoryBytes := memoryBytes + size(text) + EMBEDDING_BYTES;
      }
    }

    method GetFromCache(text: string) returns (r: Option<V>)
      requires Valid()
      modifies this
      ensures Valid() && vals == old(vals) && memoryBytes == old(memoryBytes)
      ensures r == if text in old(vals) then Some(old(vals)[text]) else None
      ensures Abs() == AfterUse(size, old(Abs()), Lookup(text))
    {
      if text !in vals {
        return None;
      }
      BytesTouch(size, keys, text);
      TouchDistinct(keys, text);
      L.TouchElements(keys, text);
      keys := L.Touch(keys, text);
      return Some(vals[text]);
    }
  }
}
