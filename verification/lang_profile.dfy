/** A language profile: gram counts plus per-length totals, fed from text
    through the n-gram window and pruned of rare and stray Latin grams. */
module LangProfiles {
  import opened Basics
  import opened NGrams

  /** Exactly three totals, one per gram length. */
  type Counts = s: seq<nat> | |s| == 3 witness [0, 0, 0]

  const MINIMUM_FREQ: nat := 2
  const LESS_FREQ_RATIO: nat := 100_000

  datatype LangProfile = LangProfile(name: Option<string>, freq: map<string, nat>, nWords: Counts)

  /* ---------------------------------------------------------------------
     Sums over the gram table
     --------------------------------------------------------------------- */

  /** `^[A-Za-z]$`: the gram is one ASCII letter. */
  predicate IsSingleAsciiLetter(g: string)
  {
    |g| == 1 && IsAsciiLetter(g[0])
  }

  /** `.*[A-Za-z].*`: the gram contains an ASCII letter somewhere. */
  predicate HasAsciiLetter(g: string)
  {
    exists i :: 0 <= i < |g| && IsAsciiLetter(g[i])
  }

  /** Which grams a sum ranges over. */
  datatype Sel = OfLength(k: nat) | SingleAsciiLetter

  predicate Selected(sel: Sel, g: string)
  {
    match sel
    case OfLength(k) => |g| == k
    case SingleAsciiLetter => IsSingleAsciiLetter(g)
  }

  ghost function Pick(keys: set<string>): (g: string)
    requires keys != {}
    ensures g in keys
  {
    var g :| g in keys; g
  }

  /** The total count of the selected grams among `keys`. */
  ghost function Sum(m: map<string, nat>, keys: set<string>, sel: Sel): nat
    requires keys <= m.Keys
    decreases keys
  {
    if keys == {} then 0
    else
      var g := Pick(keys);
      (if Selected(sel, g) then m[g] else 0) + Sum(m, keys - {g}, sel)
  }

  /** Any key can be taken out of the sum first. */
  lemma {:induction false} SumRemove(m: map<string, nat>, keys: set<string>, g: string, sel: Sel)
    requires keys <= m.Keys && g in keys
    ensures Sum(m, keys, sel) == (if Selected(sel, g) then m[g] else 0) + Sum(m, keys - {g}, sel)
    decreases keys
  {
    var h := Pick(keys);
    if h != g {
      SumRemove(m, keys - {h}, g, sel);
      SumRemove(m, keys - {g}, h, sel);
      assert keys - {h} - {g} == keys - {g} - {h};
    }
  }

  /** The sum only looks at the counts of the keys it ranges over. */
  lemma {:induction false} SumFrame(m: map<string, nat>, m': map<string, nat>, keys: set<string>, sel: Sel)
    requires keys <= m.Keys && keys <= m'.Keys
    requires forall g :: g in keys ==> m[g] == m'[g]
    ensures Sum(m, keys, sel) == Sum(m', keys, sel)
    decreases keys
  {
    if keys != {} {
      SumFrame(m, m', keys - {Pick(keys)}, sel);
    }
  }

  /** The total count of the selected grams of the whole table. */
  ghost function Weight(m: map<string, nat>, sel: Sel): nat
  {
    Sum(m, m.Keys, sel)
  }

  lemma WeightRemove(m: map<string, nat>, g: string, sel: Sel)
    requires g in m
    ensures Weight(m, sel) == (if Selected(sel, g) then m[g] else 0) + Weight(m - {g}, sel)
  {
    SumRemove(m, m.Keys, g, sel);
    SumFrame(m, m - {g}, m.Keys - {g}, sel);
  }

  /** Adding one to a gram's count adds one to every sum selecting it. */
  lemma WeightBump(m: map<string, nat>, g: string, sel: Sel)
    ensures Weight(m[g := Count(m, g) + 1], sel) == Weight(m, sel) + (if Selected(sel, g) then 1 else 0)
  {
    var m' := m[g := Count(m, g) + 1];
    SumRemove(m', m'.Keys, g, sel);
    SumFrame(m', m, m'.Keys - {g}, sel);
    if g in m {
      SumRemove(m, m.Keys, g, sel);
      assert m'.Keys - {g} == m.Keys - {g};
    } else {
      assert m'.Keys - {g} == m.Keys;
    }
  }

  /** The profile invariant: every gram has one to three chars, and
      `nWords[k]` is the total count of the grams of length `k + 1`. */
  ghost predicate Consistent(p: LangProfile)
  {
    && (forall g :: g in p.freq ==> 1 <= |g| <= N_GRAM)
    && p.nWords == Totals(p.freq)
  }

  /** The total count of the unigrams, bigrams and trigrams. */
  ghost function Totals(m: map<string, nat>): Counts
  {
    TotalsOver(m, m.Keys)
  }

  ghost function TotalsOver(m: map<string, nat>, keys: set<string>): Counts
    requires keys <= m.Keys
  {
    [Sum(m, keys, OfLength(1)), Sum(m, keys, OfLength(2)), Sum(m, keys, OfLength(3))]
  }

  function Count(m: map<string, nat>, g: string): nat
  {
    if g in m then m[g] else 0
  }

  /* ---------------------------------------------------------------------
     Construction and accumulation
     --------------------------------------------------------------------- */

  /** An unnamed profile, which ignores every gram. */
  function NewProfile(): (p: LangProfile)
    ensures Consistent(p) && p.name.None?
  {
    LangProfile(None, map[], [0, 0, 0])
  }

  function WithName(name: string): (p: LangProfile)
    ensures Consistent(p) && p.name == Some(name) && |p.freq| == 0
  {
    LangProfile(Some(name), map[], [0, 0, 0])
  }

  /** Counts one gram: ignored by an unnamed profile and for a gram of no
      or more than three chars; otherwise its count and the total for its
      length go up by one and nothing else changes. */
  function Add(p: LangProfile, gram: string): (r: LangProfile)
    ensures p.name.None? || |gram| == 0 || |gram| > N_GRAM ==> r == p
    ensures p.name.Some? && 1 <= |gram| <= N_GRAM ==>
      && r.name == p.name
      && r.freq.Keys == p.freq.Keys + {gram}
      && Count(r.freq, gram) == Count(p.freq, gram) + 1
      && (forall g :: g != gram ==> Count(r.freq, g) == Count(p.freq, g))
      && r.nWords[|gram| - 1] == p.nWords[|gram| - 1] + 1
      && (forall k :: 0 <= k < N_GRAM && k != |gram| - 1 ==> r.nWords[k] == p.nWords[k])
  {
    if p.name.None? || |gram| == 0 then p
    else
      var length := |gram|;
      if length < 1 || length > N_GRAM then p
      else
        p.(nWords := p.nWords[length - 1 := p.nWords[length - 1] + 1],
           freq := p.freq[gram := Count(p.freq, gram) + 1])
  }

  lemma AddPreservesConsistent(p: LangProfile, gram: string)
    requires Consistent(p)
    ensures Consistent(Add(p, gram))
  {
    if p.name.Some? && 1 <= |gram| <= N_GRAM {
      TotalsBump(p.freq, gram);
    }
  }

  lemma TotalsBump(m: map<string, nat>, gram: string)
    requires 1 <= |gram| <= N_GRAM
    ensures Totals(m[gram := Count(m, gram) + 1]) == Totals(m)[|gram| - 1 := Totals(m)[|gram| - 1] + 1]
  {
    var m' := m[gram := Count(m, gram) + 1];
    var w := Totals(m);
    if |gram| == 1 {
      assert Totals(m') == [w[0] + 1, w[1], w[2]] by { BumpAll(m, gram); }
      assert w[0 := w[0] + 1] == [w[0] + 1, w[1], w[2]];
    } else if |gram| == 2 {
      assert Totals(m') == [w[0], w[1] + 1, w[2]] by { BumpAll(m, gram); }
      assert w[1 := w[1] + 1] == [w[0], w[1] + 1, w[2]];
    } else {
      assert Totals(m') == [w[0], w[1], w[2] + 1] by { BumpAll(m, gram); }
      assert w[2 := w[2] + 1] == [w[0], w[1], w[2] + 1];
    }
  }

  lemma BumpAll(m: map<string, nat>, gram: string)
    ensures forall k: nat :: k in {1, 2, 3} ==>
      Weight(m[gram := Count(m, gram) + 1], OfLength(k)) == Weight(m, OfLength(k)) + (if |gram| == k then 1 else 0)
  {
    WeightBump(m, gram, OfLength(1));
    WeightBump(m, gram, OfLength(2));
    WeightBump(m, gram, OfLength(3));
  }

  /** The add cases of the profile tests: repeated, unnamed and
      out-of-range grams. */
  lemma AddExamples()
    ensures Count(Add(Add(WithName("en"), "a"), "a").freq, "a") == 2
    ensures "a" !in Add(NewProfile(), "a").freq
    ensures var p := Add(Add(Add(WithName("en"), "a"), ""), "abcd");
      Count(p.freq, "a") == 1 && "" !in p.freq && "abcd" !in p.freq
  {
  }

  function AddGram(p: LangProfile, gram: Option<string>): (r: LangProfile)
    ensures r.name == p.name
    ensures p.name.None? ==> r == p
    ensures forall w :: Count(p.freq, w) <= Count(r.freq, w)
    ensures forall w :: w in r.freq && w !in p.freq ==> 1 <= |w| <= N_GRAM
  {
    match gram
    case None => p
    case Some(g) => Add(p, g)
  }

  /** Feeds each char through the window and adds its 1-, 2- and 3-gram. */
  function Feed(t: CharTables, p: LangProfile, g: NGram, s: string): (r: LangProfile)
    ensures r.name == p.name
    ensures p.name.None? ==> r == p
    ensures forall w :: Count(p.freq, w) <= Count(r.freq, w)
    ensures forall w :: w in r.freq && w !in p.freq ==> 1 <= |w| <= N_GRAM
    decreases |s|
  {
    if |s| == 0 then p
    else
      var g' := AddChar(t, g, s[0]);
      var q := AddGram(AddGram(AddGram(p, Get(g', 1)), Get(g', 2)), Get(g', 3));
      Feed(t, q, g', s[1..])
  }

  /** Learns from a text: Vietnamese composition, then a fresh window over
      the result.  Empty text changes nothing. */
  function Update(v: VietTables, t: CharTables, p: LangProfile, text: string): (r: LangProfile)
    ensures text == [] ==> r == p
  {
    if |text| == 0 then p else Feed(t, p, NewNGram(), NormalizeVi(v, text))
  }

  lemma {:induction false} FeedPreservesConsistent(t: CharTables, p: LangProfile, g: NGram, s: string)
    requires Consistent(p)
    ensures Consistent(Feed(t, p, g, s))
    decreases |s|
  {
    if |s| > 0 {
      var g' := AddChar(t, g, s[0]);
      var p1 := AddGram(p, Get(g', 1));
      var p2 := AddGram(p1, Get(g', 2));
      var p3 := AddGram(p2, Get(g', 3));
      if Get(g', 1).Some? { AddPreservesConsistent(p, Get(g', 1).value); }
      if Get(g', 2).Some? { AddPreservesConsistent(p1, Get(g', 2).value); }
      if Get(g', 3).Some? { AddPreservesConsistent(p2, Get(g', 3).value); }
      FeedPreservesConsistent(t, p3, g', s[1..]);
    }
  }

  /** Learning keeps the totals equal to the per-length sums. */
  lemma UpdatePreservesConsistent(v: VietTables, t: CharTables, p: LangProfile, text: string)
    requires Consistent(p)
    ensures Consistent(Update(v, t, p, text))
  {
    if |text| > 0 {
      FeedPreservesConsistent(t, p, NewNGram(), NormalizeVi(v, text));
    }
  }

  lemma {:induction false} FeedUnnamed(t: CharTables, p: LangProfile, g: NGram, s: string)
    requires p.name.None?
    ensures Feed(t, p, g, s) == p
    decreases |s|
  {
    if |s| > 0 {
      FeedUnnamed(t, p, AddChar(t, g, s[0]), s[1..]);
    }
  }

  /** An unnamed profile learns nothing. */
  lemma UpdateUnnamedIsNoop(v: VietTables, t: CharTables, p: LangProfile, text: string)
    requires p.name.None?
    ensures Update(v, t, p, text) == p
  {
    if |text| > 0 {
      FeedUnnamed(t, p, NewNGram(), NormalizeVi(v, text));
    }
  }

  /* ---------------------------------------------------------------------
     Pruning
     --------------------------------------------------------------------- */

  /** `max(nWords[0] / 100000, 2)`, with integer division. */
  function Threshold(unigrams: nat): (r: nat)
    ensures r >= MINIMUM_FREQ && r >= unigrams / LESS_FREQ_RATIO
    ensures r == MINIMUM_FREQ || r == unigrams / LESS_FREQ_RATIO
  {
    if unigrams / LESS_FREQ_RATIO >= MINIMUM_FREQ then unigrams / LESS_FREQ_RATIO else MINIMUM_FREQ
  }

  /** The two pruning passes: drop counts at or below a threshold, and drop
      grams containing an ASCII letter. */
  datatype Rule = AboveThreshold(threshold: nat) | NoAsciiLetter

  predicate Keeps(rule: Rule, g: string, count: nat)
  {
    match rule
    case AboveThreshold(t) => count > t
    case NoAsciiLetter => !HasAsciiLetter(g)
  }

  /** The grams a pass keeps, with their counts. */
  function Survivors(m: map<string, nat>, rule: Rule): (r: map<string, nat>)
    ensures r.Keys <= m.Keys
    ensures forall g :: g in r ==> r[g] == m[g]
    ensures forall g :: g in m ==> (g in r <==> Keeps(rule, g, m[g]))
  {
    map g | g in m && Keeps(rule, g, m[g]) :: m[g]
  }

  /** Removing a gram from the key set takes its count out of its
      length's total. */
  lemma TotalsDrop(m: map<string, nat>, keys: set<string>, g: string)
    requires keys <= m.Keys && g in keys && 1 <= |g| <= N_GRAM
    ensures TotalsOver(m, keys)[|g| - 1] >= m[g]
    ensures TotalsOver(m, keys - {g})
         == TotalsOver(m, keys)[|g| - 1 := TotalsOver(m, keys)[|g| - 1] - m[g]]
  {
    var w := TotalsOver(m, keys);
    SumRemove(m, keys, g, OfLength(1));
    SumRemove(m, keys, g, OfLength(2));
    SumRemove(m, keys, g, OfLength(3));
    if |g| == 1 {
      assert w[0 := w[0] - m[g]] == [w[0] - m[g], w[1], w[2]];
    } else if |g| == 2 {
      assert w[1 := w[1] - m[g]] == [w[0], w[1] - m[g], w[2]];
    } else {
      assert w[2 := w[2] - m[g]] == [w[0], w[1], w[2] - m[g]];
    }
  }

  lemma TotalsFrame(m: map<string, nat>, m': map<string, nat>)
    requires m'.Keys <= m.Keys
    requires forall g :: g in m' ==> m[g] == m'[g]
    ensures TotalsOver(m, m'.Keys) == Totals(m')
    ensures Sum(m, m'.Keys, SingleAsciiLetter) == Weight(m', SingleAsciiLetter)
  {
    SumFrame(m, m', m'.Keys, OfLength(1));
    SumFrame(m, m', m'.Keys, OfLength(2));
    SumFrame(m, m', m'.Keys, OfLength(3));
    SumFrame(m, m', m'.Keys, SingleAsciiLetter);
  }

  /** The state of a pass part-way: `todo` holds the grams not yet
      visited, `kept` the table so far, `counts` its per-length totals and
      `roman` the single-letter count of the visited grams that stay. */
  ghost predicate Partway(freq: map<string, nat>, nWords: Counts, rule: Rule,
                          todo: set<string>, kept: map<string, nat>, counts: Counts, roman: nat)
  {
    && todo <= kept.Keys <= freq.Keys
    && (forall g :: g in kept ==> kept[g] == freq[g])
    && (forall g :: g in freq && g !in todo ==> (g in kept <==> Keeps(rule, g, freq[g])))
    && (forall k :: 0 <= k < N_GRAM ==> counts[k] <= nWords[k])
    && counts == TotalsOver(freq, kept.Keys)
    && roman == Sum(freq, kept.Keys - todo, SingleAsciiLetter)
  }

  /** Visits one gram: drops it when the rule rejects it, otherwise adds
      it to the single-letter count when it is one ASCII letter. */
  method Visit(freq: map<string, nat>, nWords: Counts, rule: Rule, todo: set<string>,
               kept: map<string, nat>, counts: Counts, roman: nat, g: string)
    returns (kept': map<string, nat>, counts': Counts, roman': nat)
    requires forall g :: g in freq ==> 1 <= |g| <= N_GRAM
    requires g in todo
    requires Partway(freq, nWords, rule, todo, kept, counts, roman)
    ensures Partway(freq, nWords, rule, todo - {g}, kept', counts', roman')
    ensures g in kept' <==> Keeps(rule, g, freq[g])
  {
    var c := kept[g];
    if !Keeps(rule, g, c) {
      TotalsDrop(freq, kept.Keys, g);
      assert (kept.Keys - {g}) - (todo - {g}) == kept.Keys - todo;
      counts' := counts[|g| - 1 := counts[|g| - 1] - c];
      kept' := kept - {g};
      roman' := roman;
    } else {
      var visited := kept.Keys - (todo - {g});
      SumRemove(freq, visited, g, SingleAsciiLetter);
      assert visited - {g} == kept.Keys - todo;
      kept', counts' := kept, counts;
      roman' := if IsSingleAsciiLetter(g) then roman + c else roman;
    }
  }

  /** One pass over the table: removes the grams the rule rejects,
      subtracting each removed count from the total for its length, and
      sums the counts of the single-letter grams that stay. */
  method Prune(freq: map<string, nat>, nWords: Counts, rule: Rule)
    returns (kept: map<string, nat>, counts: Counts, roman: nat)
    requires forall g :: g in freq ==> 1 <= |g| <= N_GRAM
    requires nWords == Totals(freq)
    ensures kept == Survivors(freq, rule)
    ensures counts == Totals(kept)
    ensures forall k :: 0 <= k < N_GRAM ==> counts[k] <= nWords[k]
    ensures roman == Weight(kept, SingleAsciiLetter)
  {
    kept := freq;
    counts := nWords;
    roman := 0;
    var todo := freq.Keys;
    while todo != {}
      invariant Partway(freq, nWords, rule, todo, kept, counts, roman)
      decreases |todo|
    {
      var g :| g in todo;
      kept, counts, roman := Visit(freq, nWords, rule, todo, kept, counts, roman, g);
      todo := todo - {g};
    }
    assert kept.Keys - todo == kept.Keys;
    TotalsFrame(freq, kept);
    assert kept == Survivors(freq, rule);
  }

  /** Removes rare grams, then, when single ASCII letters are a small
      minority of the remaining unigrams, every gram containing an ASCII
      letter.  The threshold is computed before anything is removed; the
      minority test uses the unigram total left by the first pass. */
  method OmitLessFreq(p: LangProfile) returns (q: LangProfile)
    requires Consistent(p)
    ensures p.name.None? ==> q == p
    ensures q.name == p.name && Consistent(q)
    ensures q.freq.Keys <= p.freq.Keys
    ensures forall g :: g in q.freq ==> q.freq[g] == p.freq[g]
    ensures forall k :: 0 <= k < N_GRAM ==> q.nWords[k] <= p.nWords[k]
    ensures p.name.Some? ==> forall g :: g in q.freq ==> q.freq[g] > Threshold(p.nWords[0])
    ensures p.name.Some? ==>
      var first := Survivors(p.freq, AboveThreshold(Threshold(p.nWords[0])));
      var minority := Weight(first, SingleAsciiLetter) < Weight(first, OfLength(1)) / 3;
      && (minority ==> q.freq == Survivors(first, NoAsciiLetter))
      && (!minority ==> q.freq == first)
      && (minority ==> forall g :: g in q.freq ==> !HasAsciiLetter(g))
  {
    if p.name.None? {
      return p;
    }
    var threshold := Threshold(p.nWords[0]);
    var first, counts, roman := Prune(p.freq, p.nWords, AboveThreshold(threshold));
    if roman < counts[0] / 3 {
      var second, counts2, _ := Prune(first, counts, NoAsciiLetter);
      q := p.(freq := second, nWords := counts2);
    } else {
      q := p.(freq := first, nWords := counts);
    }
  }
}
