/** The factory: builds the word-to-language probability table from
    language profiles, and hands out detectors over it. */
module DetectorFactories {
  import opened Basics
  import opened NGrams
  import opened LangProfiles
  import opened Languages
  import opened Detectors

  datatype FactoryError = DuplicatedLanguage(lang: string) | NotEnoughProfiles

  datatype Factory = Factory(wordLangProbMap: ProbTable, langlist: seq<string>, seed: Option<nat>)

  /** The state after a fallible operation, with its outcome.  A failed
      operation may still have changed the state. */
  datatype Step = Step(factory: Factory, outcome: Result<(), FactoryError>)

  /** What the builder gives with no setter called. */
  function NewFactory(): (f: Factory)
    ensures f.wordLangProbMap == map[] && f.langlist == [] && f.seed.None?
  {
    Factory(map[], [], None)
  }

  function Clear(f: Factory): (r: Factory)
    ensures r.langlist == [] && r.wordLangProbMap == map[] && r.seed == f.seed
  {
    f.(wordLangProbMap := map[], langlist := [])
  }

  function SetSeed(f: Factory, seed: nat): (r: Factory)
    ensures r.seed == Some(seed)
    ensures r.wordLangProbMap == f.wordLangProbMap && r.langlist == f.langlist
  {
    f.(seed := Some(seed))
  }

  /** A fresh detector over copies of the table, the list and the seed;
      `alpha` replaces the default only when given. */
  function Create(f: Factory, alpha: Option<real>): (d: Detector)
    ensures d.wordLangProbMap == f.wordLangProbMap && d.langlist == f.langlist && d.seed == f.seed
    ensures alpha.Some? ==> d.alpha == alpha.value
    ensures alpha.None? ==> d.alpha == ALPHA_DEFAULT
    ensures d.text == [] && d.langprob.None? && d.priorMap.None?
    ensures d.nTrial == DEFAULT_TRIALS && d.maxTextLength == DEFAULT_MAX_TEXT_LENGTH
  {
    var d := NewDetector(f.wordLangProbMap, f.langlist, f.seed);
    match alpha
    case Some(a) => d.(alpha := a)
    case None => d
  }

  /* ---------------------------------------------------------------------
     Adding and removing profiles
     --------------------------------------------------------------------- */

  /** Whether a gram's length in chars gives it a probability. */
  predicate Scored(w: string)
  {
    1 <= |w| <= N_GRAM
  }

  /** The vector a profile's gram starts from: its current one, or zeros
      for `langsize` languages when it has none yet. */
  function Base(table: ProbTable, w: string, langsize: nat): (v: seq<real>)
    ensures w in table ==> v == table[w]
    ensures w !in table ==> |v| == langsize && forall i :: 0 <= i < langsize ==> v[i] == 0.0
  {
    if w in table then table[w] else Zeros(langsize)
  }

  /** What storing the profile needs: a name (it is unwrapped), a non-zero
      word count for every scored gram's length (no division by zero), and
      `index` inside every vector it writes to. */
  predicate Overridable(f: Factory, p: LangProfile, index: nat, langsize: nat)
  {
    && p.name.Some?
    && forall w :: w in p.freq && Scored(w) ==>
         p.nWords[|w| - 1] > 0 && index < |Base(f.wordLangProbMap, w, langsize)|
  }

  /** The probability of gram `w` in the profile: its count over the number
      of grams of its length. */
  function Ratio(p: LangProfile, w: string): (r: real)
    requires w in p.freq && Scored(w) && p.nWords[|w| - 1] > 0
    ensures 0.0 <= r <= p.freq[w] as real
  {
    p.freq[w] as real / p.nWords[|w| - 1] as real
  }

  /** The vector of a profile gram after storing the profile. */
  function Stored(f: Factory, p: LangProfile, index: nat, langsize: nat, w: string): seq<real>
    requires Overridable(f, p, index, langsize) && w in p.freq
  {
    var base := Base(f.wordLangProbMap, w, langsize);
    if Scored(w) then base[index := Ratio(p, w)] else base
  }

  /** Appends the profile's name and writes its probabilities at `index`.
      Every gram of the profile gets a vector, a zero one of length
      `langsize` when it had none, even when its length is outside 1..3.
      Neither the name nor `index` is checked against the list.  Each gram
      touches only its own vector, so the order the grams are visited in
      does not matter. */
  function OverrideProfile(f: Factory, p: LangProfile, index: nat, langsize: nat): (r: Factory)
    requires Overridable(f, p, index, langsize)
    ensures r.langlist == f.langlist + [p.name.value] && r.seed == f.seed
    ensures r.wordLangProbMap.Keys == f.wordLangProbMap.Keys + p.freq.Keys
  {
    var table := map w | w in f.wordLangProbMap.Keys + p.freq.Keys ::
      if w in p.freq then Stored(f, p, index, langsize, w) else f.wordLangProbMap[w];
    Factory(table, f.langlist + [p.name.value], f.seed)
  }

  /** What storing a profile does to one gram's vector: a gram outside the
      profile keeps its vector; a profile gram keeps the length of the
      vector it starts from (`langsize` when it had none) and every entry
      but `index`, which becomes count over word count when the gram's
      length is 1..3; a gram of another length keeps its starting vector,
      so a new one stays all zeros. */
  lemma OverrideVector(f: Factory, p: LangProfile, index: nat, langsize: nat, w: string)
    requires Overridable(f, p, index, langsize)
    ensures var t := OverrideProfile(f, p, index, langsize).wordLangProbMap;
      && (w in f.wordLangProbMap && w !in p.freq ==> t[w] == f.wordLangProbMap[w])
      && (w in p.freq ==>
            var base := Base(f.wordLangProbMap, w, langsize);
            && |t[w]| == |base|
            && (forall i :: 0 <= i < |base| && i != index ==> t[w][i] == base[i])
            && (Scored(w) ==> t[w][index] == Ratio(p, w))
            && (!Scored(w) ==> t[w] == base))
  {
    var t := OverrideProfile(f, p, index, langsize).wordLangProbMap;
    if w in p.freq {
      assert t[w] == Stored(f, p, index, langsize, w);
      StoredVector(f, p, index, langsize, w);
    }
  }

  lemma StoredVector(f: Factory, p: LangProfile, index: nat, langsize: nat, w: string)
    requires Overridable(f, p, index, langsize) && w in p.freq
    ensures var base := Base(f.wordLangProbMap, w, langsize);
      var v := Stored(f, p, index, langsize, w);
      && |v| == |base|
      && (forall i :: 0 <= i < |base| && i != index ==> v[i] == base[i])
      && (Scored(w) ==> v[index] == Ratio(p, w))
      && (!Scored(w) ==> v == base)
  {
  }

  /** Refuses a profile whose name is already listed, changing nothing;
      otherwise stores it. */
  function AddProfile(f: Factory, p: LangProfile, index: nat, langsize: nat): (r: Step)
    requires p.name.Some?
    requires p.name.value !in f.langlist ==> Overridable(f, p, index, langsize)
    ensures r.outcome.Err? <==> p.name.value in f.langlist
    ensures r.outcome.Err? ==> r.outcome.error == DuplicatedLanguage(p.name.value) && r.factory == f
    ensures r.outcome.Ok? ==> r.factory == OverrideProfile(f, p, index, langsize)
  {
    if p.name.value in f.langlist then Step(f, Err(DuplicatedLanguage(p.name.value)))
    else Step(OverrideProfile(f, p, index, langsize), Ok(()))
  }

  /** `v` without its entry at `p`. */
  function RemoveAt(v: seq<real>, p: nat): (r: seq<real>)
    requires p < |v|
    ensures |r| == |v| - 1
    ensures forall i :: 0 <= i < p ==> r[i] == v[i]
    ensures forall i :: p <= i < |r| ==> r[i] == v[i + 1]
  {
    v[..p] + v[p + 1..]
  }

  /** Removes the language at its first position in the list, and that
      entry from every vector long enough to have it.  A language that is
      not listed is reported with the `DuplicatedLanguage` variant. */
  function DeleteProfile(f: Factory, lang: string): (r: Step)
    ensures r.outcome.Err? <==> lang !in f.langlist
    ensures r.outcome.Err? ==> r.outcome.error == DuplicatedLanguage(lang) && r.factory == f
    ensures r.factory.seed == f.seed
    ensures r.outcome.Ok? ==>
      var p := IndexOf(f.langlist, lang).value;
      && r.factory.langlist == f.langlist[..p] + f.langlist[p + 1..]
      && r.factory.wordLangProbMap.Keys == f.wordLangProbMap.Keys
      && forall w :: w in f.wordLangProbMap ==>
           var v := f.wordLangProbMap[w];
           r.factory.wordLangProbMap[w] == if |v| > p then RemoveAt(v, p) else v
  {
    match IndexOf(f.langlist, lang)
    case None => Step(f, Err(DuplicatedLanguage(lang)))
    case Some(p) =>
      var table := map w | w in f.wordLangProbMap ::
        var v := f.wordLangProbMap[w];
        if |v| > p then RemoveAt(v, p) else v;
      Step(f.(wordLangProbMap := table, langlist := f.langlist[..p] + f.langlist[p + 1..]), Ok(()))
  }

  /** Deleting a language just stored at the end of the list takes its name
      off again and removes, from every vector the profile wrote, exactly
      the entry it wrote: every other entry is as before. */
  lemma DeleteUndoesOverride(f: Factory, p: LangProfile, langsize: nat)
    requires Overridable(f, p, |f.langlist|, langsize) && p.name.value !in f.langlist
    ensures var r := DeleteProfile(OverrideProfile(f, p, |f.langlist|, langsize), p.name.value);
      && r.outcome.Ok?
      && r.factory.langlist == f.langlist
      && forall w :: w in p.freq && Scored(w) ==>
           var base := Base(f.wordLangProbMap, w, langsize);
           r.factory.wordLangProbMap[w] == RemoveAt(base, |f.langlist|)
  {
    var index := |f.langlist|;
    var name := p.name.value;
    var o := OverrideProfile(f, p, index, langsize);
    assert IndexOf(o.langlist, name) == Some(index) by {
      assert o.langlist[index] == name;
      assert forall j :: 0 <= j < index ==> o.langlist[j] == f.langlist[j];
    }
    assert o.langlist[..index] + o.langlist[index + 1..] == f.langlist;
    var r := DeleteProfile(o, name);
    forall w | w in p.freq && Scored(w)
      ensures r.factory.wordLangProbMap[w] == RemoveAt(Base(f.wordLangProbMap, w, langsize), index)
    {
      var base := Base(f.wordLangProbMap, w, langsize);
      var v := o.wordLangProbMap[w];
      OverrideVector(f, p, index, langsize, w);
      assert |v| == |base| > index;
      assert RemoveAt(v, index) == RemoveAt(base, index);
    }
  }

  /* ---------------------------------------------------------------------
     Loading decoded JSON profiles
     --------------------------------------------------------------------- */

  /** The fields of one JSON profile. */
  datatype JsonProfile = JsonProfile(freq: map<string, nat>, nWords: seq<nat>, name: string)

  /** One input after decoding: malformed JSON is not decoded here. */
  datatype Decoded = Parsed(json: JsonProfile) | Malformed

  /** The first three word counts, padded with zeros. */
  function PadCounts(n: seq<nat>): (r: Counts)
    ensures forall i :: 0 <= i < 3 ==> r[i] == (if i < |n| then n[i] else 0)
  {
    seq(3, i requires 0 <= i < 3 => if i < |n| then n[i] else 0)
  }

  function ToProfile(j: JsonProfile): (p: LangProfile)
    ensures p.name == Some(j.name) && p.freq == j.freq && p.nWords == PadCounts(j.nWords)
  {
    LangProfile(Some(j.name), j.freq, PadCounts(j.nWords))
  }

  /** The word counts each decoded profile divides by are non-zero. */
  predicate Divisible(ps: seq<Decoded>)
  {
    forall j :: 0 <= j < |ps| && ps[j].Parsed? ==>
      forall w :: w in ps[j].json.freq && Scored(w) ==> PadCounts(ps[j].json.nWords)[|w| - 1] > 0
  }

  /** Every vector the table already has for a gram of profile `j` (from
      `from` on) has an entry `j`. */
  predicate Indexable(table: ProbTable, ps: seq<Decoded>, from: nat)
  {
    forall j :: from <= j < |ps| && ps[j].Parsed? ==>
      forall w :: w in ps[j].json.freq && Scored(w) && w in table ==> |table[w]| > j
  }

  /** The names of the decoded profiles. */
  function Names(ps: seq<Decoded>): (r: seq<string>)
    requires forall j :: 0 <= j < |ps| ==> ps[j].Parsed?
    ensures |r| == |ps| && forall j :: 0 <= j < |ps| ==> r[j] == ps[j].json.name
  {
    seq(|ps|, j requires 0 <= j < |ps| => ps[j].json.name)
  }

  /** Whether the profiles from `from` on decode and can all be added in
      turn: every one parsed, its name neither listed nor repeated. */
  predicate AllAddable(langlist: seq<string>, ps: seq<Decoded>, from: nat)
    requires from <= |ps|
  {
    && (forall j :: from <= j < |ps| ==> ps[j].Parsed?)
    && (forall j :: from <= j < |ps| ==> ps[j].json.name !in langlist)
    && (forall j, k :: from <= j < k < |ps| ==> ps[j].json.name != ps[k].json.name)
  }

  /** The list after loading from `i`: the old list, then the names of
      the profiles added, in input order. */
  predicate ExtendsWithNames(before: seq<string>, after: seq<string>, ps: seq<Decoded>, i: nat)
    requires i <= |ps|
  {
    && |before| <= |after| <= |before| + |ps| - i
    && after[..|before|] == before
    && forall j :: |before| <= j < |after| ==> NamedAt(|before|, after, ps, i, j)
  }

  /** Entry `j` of the list is the name of profile `i + j - n`. */
  predicate NamedAt(n: nat, after: seq<string>, ps: seq<Decoded>, i: nat, j: nat)
  {
    n <= j < |after| && 0 <= i + j - n < |ps| && ps[i + j - n].Parsed? && after[j] == ps[i + j - n].json.name
  }

  /** A failed load from `i` stopped at the profile right after the ones
      it added (no rollback): one that does not decode, reported as
      `NotEnoughProfiles`, or one whose name the list then held, reported
      as a duplicate. */
  predicate StoppedAt(before: seq<string>, r: Step, ps: seq<Decoded>, i: nat)
  {
    r.outcome.Err? ==>
      var k := i + |r.factory.langlist| - |before|;
      && i <= k < |ps|
      && (ps[k].Malformed? ==> r.outcome.error == NotEnoughProfiles)
      && (ps[k].Parsed? ==> ps[k].json.name in r.factory.langlist && r.outcome.error == DuplicatedLanguage(ps[k].json.name))
  }

  lemma StoppedShift(before: seq<string>, middle: seq<string>, r: Step, ps: seq<Decoded>, i: nat)
    requires |middle| == |before| + 1 && StoppedAt(middle, r, ps, i + 1)
    ensures StoppedAt(before, r, ps, i)
  {
  }

  /** Adds profile `i` at index `i`, then the rest; stops at the first
      failure, keeping what was added before it. */
  function LoadFrom(f: Factory, ps: seq<Decoded>, i: nat, langsize: nat): (r: Step)
    requires i <= |ps| == langsize && Divisible(ps) && Indexable(f.wordLangProbMap, ps, i)
    ensures r.factory.seed == f.seed
    ensures ExtendsWithNames(f.langlist, r.factory.langlist, ps, i)
    ensures r.outcome.Ok? <==> AllAddable(f.langlist, ps, i)
    ensures r.outcome.Ok? ==> |r.factory.langlist| == |f.langlist| + |ps| - i
    ensures StoppedAt(f.langlist, r, ps, i)
    decreases |ps| - i
  {
    if i == |ps| then Step(f, Ok(()))
    else match ps[i]
      case Malformed => Step(f, Err(NotEnoughProfiles))
      case Parsed(json) =>
        var p := ToProfile(json);
        if json.name in f.langlist then Step(f, Err(DuplicatedLanguage(json.name)))
        else
          assert Overridable(f, p, i, langsize);
          var g := OverrideProfile(f, p, i, langsize);
          assert Indexable(g.wordLangProbMap, ps, i + 1) by {
            IndexableAfterOverride(f, p, ps, i, langsize);
          }
          var r := LoadFrom(g, ps, i + 1, langsize);
          assert ExtendsWithNames(f.langlist, r.factory.langlist, ps, i) by {
            NamesShift(f.langlist, g.langlist, r.factory.langlist, ps, i);
          }
          assert r.outcome.Ok? <==> AllAddable(f.langlist, ps, i) by {
            AddableShift(f.langlist, json.name, ps, i);
          }
          assert StoppedAt(f.langlist, r, ps, i) by {
            StoppedShift(f.langlist, g.langlist, r, ps, i);
          }
          r
  }

  /** Storing profile `i` keeps every existing vector's length and gives
      new ones `langsize > j` entries, so later profiles stay indexable. */
  lemma IndexableAfterOverride(f: Factory, p: LangProfile, ps: seq<Decoded>, i: nat, langsize: nat)
    requires i < |ps| == langsize && Indexable(f.wordLangProbMap, ps, i)
    requires Overridable(f, p, i, langsize)
    ensures Indexable(OverrideProfile(f, p, i, langsize).wordLangProbMap, ps, i + 1)
  {
    var t := OverrideProfile(f, p, i, langsize).wordLangProbMap;
    forall j, w | i + 1 <= j < |ps| && ps[j].Parsed? && w in ps[j].json.freq && Scored(w) && w in t
      ensures |t[w]| > j
    {
      if w !in f.wordLangProbMap {
        assert w in p.freq;
      }
    }
  }

  lemma NamesShift(before: seq<string>, middle: seq<string>, after: seq<string>, ps: seq<Decoded>, i: nat)
    requires i < |ps| && ps[i].Parsed? && middle == before + [ps[i].json.name]
    requires ExtendsWithNames(middle, after, ps, i + 1)
    ensures ExtendsWithNames(before, after, ps, i)
  {
    assert |before| <= |after| <= |before| + |ps| - i;
    assert after[..|middle|] == middle;
    assert after[..|before|] == middle[..|before|] == before;
    forall j | |before| <= j < |after|
      ensures NamedAt(|before|, after, ps, i, j)
    {
      if j == |before| {
        assert after[j] == after[..|middle|][j] == middle[j];
      } else {
        ExtendsAt(middle, after, ps, i + 1, j);
      }
    }
  }

  lemma ExtendsAt(before: seq<string>, after: seq<string>, ps: seq<Decoded>, i: nat, j: nat)
    requires i <= |ps| && ExtendsWithNames(before, after, ps, i) && |before| <= j < |after|
    ensures ps[i + j - |before|].Parsed? && after[j] == ps[i + j - |before|].json.name
  {
    assert NamedAt(|before|, after, ps, i, j);
  }

  lemma AddableShift(langlist: seq<string>, name: string, ps: seq<Decoded>, i: nat)
    requires i < |ps| && ps[i].Parsed? && ps[i].json.name == name && name !in langlist
    ensures AllAddable(langlist + [name], ps, i + 1) <==> AllAddable(langlist, ps, i)
  {
    if AllAddable(langlist + [name], ps, i + 1) {
      forall j | i <= j < |ps| ensures ps[j].json.name !in langlist {
        if j > i {
          assert ps[j].json.name !in langlist + [name];
        }
      }
    }
    if AllAddable(langlist, ps, i) {
      forall j | i + 1 <= j < |ps| ensures ps[j].json.name !in langlist + [name] {
        assert ps[i].json.name != ps[j].json.name;
      }
    }
  }

  /** Needs at least two inputs and fails before any change otherwise;
      then adds profile `i` at index `i` for `langsize` languages.  A
      profile that does not decode is reported as `NotEnoughProfiles`; the
      profiles added before a failure stay. */
  function LoadJsonProfile(f: Factory, ps: seq<Decoded>): (r: Step)
    requires |ps| >= 2 ==> Divisible(ps) && Indexable(f.wordLangProbMap, ps, 0)
    ensures |ps| < 2 ==> r == Step(f, Err(NotEnoughProfiles))
    ensures r.factory.seed == f.seed
    ensures ExtendsWithNames(f.langlist, r.factory.langlist, ps, 0)
    ensures r.outcome.Ok? <==> |ps| >= 2 && AllAddable(f.langlist, ps, 0)
    ensures r.outcome.Ok? ==> r.factory.langlist == f.langlist + Names(ps)
  {
    if |ps| < 2 then Step(f, Err(NotEnoughProfiles))
    else
      var r := LoadFrom(f, ps, 0, |ps|);
      assert r.outcome.Ok? ==> r.factory.langlist == f.langlist + Names(ps) by {
        if r.outcome.Ok? {
          FullExtensionIsNames(f.langlist, r.factory.langlist, ps);
        }
      }
      r
  }

  /** A list extended by all the profiles is the old list followed by
      their names. */
  lemma FullExtensionIsNames(before: seq<string>, after: seq<string>, ps: seq<Decoded>)
    requires ExtendsWithNames(before, after, ps, 0) && |after| == |before| + |ps|
    requires forall j :: 0 <= j < |ps| ==> ps[j].Parsed?
    ensures after == before + Names(ps)
  {
    forall j | |before| <= j < |after| ensures after[j] == Names(ps)[j - |before|] {
      ExtendsAt(before, after, ps, 0, j);
    }
    assert after == after[..|before|] + after[|before|..];
  }

  /* ---------------------------------------------------------------------
     Table shape and the shortcut queries
     --------------------------------------------------------------------- */

  /** Every vector has exactly `n` entries, none negative. */
  predicate Rectangular(table: ProbTable, n: nat)
  {
    forall w :: w in table ==> |table[w]| == n && NonNeg(table[w])
  }

  /** Storing a profile at an index below `langsize` keeps a table of
      `langsize`-entry vectors rectangular. */
  lemma OverrideKeepsRectangular(f: Factory, p: LangProfile, index: nat, langsize: nat)
    requires Overridable(f, p, index, langsize) && Rectangular(f.wordLangProbMap, langsize)
    ensures Rectangular(OverrideProfile(f, p, index, langsize).wordLangProbMap, langsize)
  {
    var t := OverrideProfile(f, p, index, langsize).wordLangProbMap;
    forall w | w in t ensures |t[w]| == langsize && NonNeg(t[w]) {
      OverrideVectorShape(f, p, index, langsize, w);
    }
  }

  /** One step of loading: profile `i` stored, then the rest loaded. */
  lemma LoadFromAdds(f: Factory, ps: seq<Decoded>, i: nat, langsize: nat)
    requires i < |ps| == langsize && Divisible(ps) && Indexable(f.wordLangProbMap, ps, i)
    requires ps[i].Parsed? && ps[i].json.name !in f.langlist
    ensures Overridable(f, ToProfile(ps[i].json), i, langsize)
    ensures var g := OverrideProfile(f, ToProfile(ps[i].json), i, langsize);
      Indexable(g.wordLangProbMap, ps, i + 1) && LoadFrom(f, ps, i, langsize) == LoadFrom(g, ps, i + 1, langsize)
  {
    IndexableAfterOverride(f, ToProfile(ps[i].json), ps, i, langsize);
  }

  /** Loading stops, changing nothing, at the end of the input, at a
      profile that does not decode and at a listed name. */
  lemma LoadFromStops(f: Factory, ps: seq<Decoded>, i: nat, langsize: nat)
    requires i <= |ps| == langsize && Divisible(ps) && Indexable(f.wordLangProbMap, ps, i)
    ensures !(i < |ps| && ps[i].Parsed? && ps[i].json.name !in f.langlist) ==>
      LoadFrom(f, ps, i, langsize).factory == f
  {
  }

  /** The table has a vector of `len` entries for `w`, with `x` at `e`. */
  predicate EntryIs(table: ProbTable, w: string, len: nat, e: nat, x: real)
  {
    w in table && |table[w]| == len && e < len && table[w][e] == x
  }

  /** If `before` has entry `e` for `w`, then `after` has a vector of the
      same length for `w`, with the same entry `e`. */
  predicate KeepsEntry(before: ProbTable, after: ProbTable, w: string, e: nat)
  {
    w in before && e < |before[w]| ==>
      w in after && |after[w]| == |before[w]| && after[w][e] == before[w][e]
  }

  /** Every vector of `before` is in `after` with the same length and the
      same entries below `i`. */
  ghost predicate KeepsEntries(before: ProbTable, after: ProbTable, i: nat)
  {
    forall w, e: nat :: e < i ==> KeepsEntry(before, after, w, e)
  }

  lemma KeepsEntriesTrans(a: ProbTable, b: ProbTable, c: ProbTable, i: nat)
    requires KeepsEntries(a, b, i) && KeepsEntries(b, c, i + 1)
    ensures KeepsEntries(a, c, i)
  {
    forall w, e: nat | e < i ensures KeepsEntry(a, c, w, e) {
      assert KeepsEntry(a, b, w, e) && KeepsEntry(b, c, w, e);
    }
  }

  /** Storing a profile at `index` keeps every existing vector's length
      and its entries below `index`. */
  lemma OverrideKeepsEntries(f: Factory, p: LangProfile, index: nat, langsize: nat)
    requires Overridable(f, p, index, langsize)
    ensures KeepsEntries(f.wordLangProbMap, OverrideProfile(f, p, index, langsize).wordLangProbMap, index)
  {
    var t := OverrideProfile(f, p, index, langsize).wordLangProbMap;
    forall w, e: nat | e < index ensures KeepsEntry(f.wordLangProbMap, t, w, e) {
      OverrideVector(f, p, index, langsize, w);
    }
  }

  /** Storing a profile at `index` writes the ratio of each of its scored
      grams at `index`. */
  lemma OverrideWritesIndex(f: Factory, p: LangProfile, index: nat, langsize: nat, w: string)
    requires Overridable(f, p, index, langsize) && w in p.freq && Scored(w)
    ensures var t := OverrideProfile(f, p, index, langsize).wordLangProbMap;
      w in t && index < |t[w]| && t[w][index] == Ratio(p, w)
  {
    OverrideVector(f, p, index, langsize, w);
  }

  /** Loading from `i` keeps the length of every vector already in the
      table and every entry below `i`: later profiles write only at their
      own, larger, indices. */
  lemma {:induction false} LoadKeepsEntries(f: Factory, ps: seq<Decoded>, i: nat, langsize: nat)
    requires i <= |ps| == langsize && Divisible(ps) && Indexable(f.wordLangProbMap, ps, i)
    ensures KeepsEntries(f.wordLangProbMap, LoadFrom(f, ps, i, langsize).factory.wordLangProbMap, i)
    decreases |ps| - i, 1
  {
    if i < |ps| && ps[i].Parsed? && ps[i].json.name !in f.langlist {
      LoadKeepsEntriesStep(f, ps, i, langsize);
    } else {
      LoadFromStops(f, ps, i, langsize);
      assert LoadFrom(f, ps, i, langsize).factory.wordLangProbMap == f.wordLangProbMap;
    }
  }

  /** One step of `LoadKeepsEntries`: storing profile `i` keeps the entries
      below `i`, and the rest of the load keeps those below `i + 1`. */
  lemma {:induction false} LoadKeepsEntriesStep(f: Factory, ps: seq<Decoded>, i: nat, langsize: nat)
    requires i < |ps| == langsize && Divisible(ps) && Indexable(f.wordLangProbMap, ps, i)
    requires ps[i].Parsed? && ps[i].json.name !in f.langlist
    ensures KeepsEntries(f.wordLangProbMap, LoadFrom(f, ps, i, langsize).factory.wordLangProbMap, i)
    decreases |ps| - i, 0
  {
    var p := ToProfile(ps[i].json);
    LoadFromAdds(f, ps, i, langsize);
    var g := OverrideProfile(f, p, i, langsize);
    OverrideKeepsEntries(f, p, i, langsize);
    LoadKeepsEntries(g, ps, i + 1, langsize);
    KeepsEntriesTrans(f.wordLangProbMap, g.wordLangProbMap, LoadFrom(g, ps, i + 1, langsize).factory.wordLangProbMap, i);
  }

  /** The vector of `w` has `x` at `j`. */
  predicate WrittenAt(table: ProbTable, w: string, j: nat, x: real)
  {
    w in table && j < |table[w]| && table[w][j] == x
  }

  /** The profile a load adds first has its probabilities at its index. */
  lemma LoadWritesFirst(f: Factory, ps: seq<Decoded>, i: nat, langsize: nat, w: string)
    requires i < |ps| == langsize && Divisible(ps) && Indexable(f.wordLangProbMap, ps, i)
    requires ps[i].Parsed? && ps[i].json.name !in f.langlist && w in ps[i].json.freq && Scored(w)
    ensures WrittenAt(LoadFrom(f, ps, i, langsize).factory.wordLangProbMap, w, i, Ratio(ToProfile(ps[i].json), w))
  {
    var p := ToProfile(ps[i].json);
    LoadFromAdds(f, ps, i, langsize);
    var g := OverrideProfile(f, p, i, langsize);
    OverrideWritesIndex(f, p, i, langsize, w);
    LoadKeepsEntries(g, ps, i + 1, langsize);
    assert KeepsEntry(g.wordLangProbMap, LoadFrom(g, ps, i + 1, langsize).factory.wordLangProbMap, w, i);
  }

  /** Every profile a load adds, successful or not, has its probabilities
      written at its own index: entry `j` of the vector of each of its
      grams of one to three chars is the gram's count over its word count. */
  lemma {:induction false} LoadWritesOwnIndex(f: Factory, ps: seq<Decoded>, i: nat, langsize: nat, j: nat, w: string)
    requires i <= |ps| == langsize && Divisible(ps) && Indexable(f.wordLangProbMap, ps, i)
    requires i <= j < i + |LoadFrom(f, ps, i, langsize).factory.langlist| - |f.langlist|
    requires ps[j].Parsed? && w in ps[j].json.freq && Scored(w)
    ensures WrittenAt(LoadFrom(f, ps, i, langsize).factory.wordLangProbMap, w, j, Ratio(ToProfile(ps[j].json), w))
    decreases |ps| - i
  {
    LoadFromStops(f, ps, i, langsize);
    if j == i {
      LoadWritesFirst(f, ps, i, langsize, w);
    } else {
      LoadFromAdds(f, ps, i, langsize);
      var g := OverrideProfile(f, ToProfile(ps[i].json), i, langsize);
      LoadWritesOwnIndex(g, ps, i + 1, langsize, j, w);
    }
  }

  lemma OverrideVectorShape(f: Factory, p: LangProfile, index: nat, langsize: nat, w: string)
    requires Overridable(f, p, index, langsize) && Rectangular(f.wordLangProbMap, langsize)
    requires w in OverrideProfile(f, p, index, langsize).wordLangProbMap
    ensures var t := OverrideProfile(f, p, index, langsize).wordLangProbMap;
      |t[w]| == langsize && NonNeg(t[w])
  {
    var t := OverrideProfile(f, p, index, langsize).wordLangProbMap;
    if w in p.freq {
      assert t[w] == Stored(f, p, index, langsize, w);
      StoredNonNeg(f, p, index, langsize, w);
    } else {
      assert t[w] == f.wordLangProbMap[w];
    }
  }

  /** A stored vector is as long as its starting vector, and non-negative
      when that one is. */
  lemma StoredNonNeg(f: Factory, p: LangProfile, index: nat, langsize: nat, w: string)
    requires Overridable(f, p, index, langsize) && w in p.freq && NonNeg(Base(f.wordLangProbMap, w, langsize))
    ensures var v := Stored(f, p, index, langsize, w);
      |v| == |Base(f.wordLangProbMap, w, langsize)| && NonNeg(v)
  {
    var v := Stored(f, p, index, langsize, w);
    var base := Base(f.wordLangProbMap, w, langsize);
    StoredVector(f, p, index, langsize, w);
    forall i | 0 <= i < |v| ensures v[i] >= 0.0 {
      if i != index || !Scored(w) {
        assert v[i] == base[i];
      }
    }
  }

  /** Loading keeps a table of `langsize`-entry non-negative vectors
      rectangular. */
  lemma {:induction false} LoadKeepsRectangular(f: Factory, ps: seq<Decoded>, i: nat, langsize: nat)
    requires i <= |ps| == langsize && Divisible(ps) && Indexable(f.wordLangProbMap, ps, i)
    requires Rectangular(f.wordLangProbMap, langsize)
    ensures Rectangular(LoadFrom(f, ps, i, langsize).factory.wordLangProbMap, langsize)
    decreases |ps| - i
  {
    if i < |ps| && ps[i].Parsed? && ps[i].json.name !in f.langlist {
      var p := ToProfile(ps[i].json);
      LoadFromAdds(f, ps, i, langsize);
      var g := OverrideProfile(f, p, i, langsize);
      OverrideKeepsRectangular(f, p, i, langsize);
      LoadKeepsRectangular(g, ps, i + 1, langsize);
    } else {
      LoadFromStops(f, ps, i, langsize);
    }
  }

  /** After a successful load into an empty factory, a detector created
      from it can run its trials whenever every trial's alpha is positive. */
  lemma LoadedIsRunnable(ps: seq<Decoded>, alpha: Option<real>, draws: Draws)
    requires |ps| >= 2 ==> Divisible(ps)
    requires LoadJsonProfile(NewFactory(), ps).outcome.Ok?
    ensures var d := Create(LoadJsonProfile(NewFactory(), ps).factory, alpha);
      (forall t :: 0 <= t < d.nTrial ==> d.alpha + draws.gaussian(t) * ALPHA_WIDTH > 0.0) ==>
      Runnable(d, draws) && |d.langlist| == |ps|
  {
    var f := NewFactory();
    LoadKeepsRectangular(f, ps, 0, |ps|);
  }

  /** Whether a detector created with `alpha` can run with `draws`. */
  predicate CanRun(f: Factory, alpha: Option<real>, draws: Draws)
  {
    Runnable(Create(f, alpha), draws)
  }

  /** Creates a detector, appends the text and detects: the answer is
      "unknown" or a listed language. */
  function FactoryDetect(t: CharTables, v: VietTables, prefilter: string -> string,
                         f: Factory, text: string, alpha: Option<real>, draws: Draws): (r: Result<string, DetectorError>)
    requires CanRun(f, alpha, draws)
    ensures r.Ok? ==> r.value == UNKNOWN_LANG || r.value in f.langlist
  {
    var d := Append(Create(f, alpha), v, prefilter, text);
    assert Runnable(d, draws);
    Detect(t, d, draws).outcome
  }

  /** Creates a detector, appends the text and ranks the languages: only
      listed languages above the threshold, most probable first. */
  function FactoryGetProbabilities(t: CharTables, v: VietTables, prefilter: string -> string,
                                   f: Factory, text: string, alpha: Option<real>, draws: Draws)
    : (r: Result<seq<Language>, DetectorError>)
    requires CanRun(f, alpha, draws)
    ensures r.Ok? ==> SortedDesc(r.value)
    ensures r.Ok? ==> forall x :: x in r.value ==> x.lang.Some? && x.lang.value in f.langlist && x.prob > PROB_THRESHOLD
  {
    var d := Append(Create(f, alpha), v, prefilter, text);
    assert Runnable(d, draws);
    var g := GetProbabilities(t, d, draws);
    assert g.outcome.Ok? ==> forall x :: x in g.outcome.value ==> x.lang.Some? && x.lang.value in f.langlist && x.prob > PROB_THRESHOLD by {
      if g.outcome.Ok? {
        assert g.detector.langlist == f.langlist;
      }
    }
    g.outcome
  }
}
