/** The detector: collects text, extracts the known n-grams from it, runs
    the randomised naive-Bayes trials over exact reals and ranks the
    languages.  The random draws, the URL/e-mail filter and the Unicode
    block table come in as parameters. */
module Detectors {
  import opened Basics
  import opened NGrams
  import opened Languages

  const ALPHA_DEFAULT: real := 0.5
  const ALPHA_WIDTH: real := 0.05
  const ITERATION_LIMIT: nat := 1000
  const PROB_THRESHOLD: real := 0.1
  const CONV_THRESHOLD: real := 0.99999
  const BASE_FREQ: real := 10000.0
  const UNKNOWN_LANG: string := "unknown"
  const DEFAULT_TRIALS: nat := 7
  const DEFAULT_MAX_TEXT_LENGTH: nat := 10000

  datatype DetectorError = NoFeatures

  /** Word to per-language probability vector. */
  type ProbTable = map<string, seq<real>>

  datatype Detector = Detector(
    wordLangProbMap: ProbTable,
    langlist: seq<string>,
    seed: Option<nat>,
    text: string,
    langprob: Option<seq<real>>,
    alpha: real,
    nTrial: nat,
    maxTextLength: nat,
    priorMap: Option<seq<real>>,
    verbose: bool)

  /** The state after an operation, with what it returned. */
  datatype Run<T> = Run(detector: Detector, outcome: Result<T, DetectorError>)

  function NewDetector(table: ProbTable, langlist: seq<string>, seed: Option<nat>): (d: Detector)
    ensures d.wordLangProbMap == table && d.langlist == langlist && d.seed == seed
    ensures d.text == [] && d.langprob.None? && d.priorMap.None? && !d.verbose
    ensures d.alpha == ALPHA_DEFAULT && d.nTrial == DEFAULT_TRIALS && d.maxTextLength == DEFAULT_MAX_TEXT_LENGTH
  {
    Detector(table, langlist, seed, "", None, ALPHA_DEFAULT, DEFAULT_TRIALS, DEFAULT_MAX_TEXT_LENGTH, None, false)
  }

  /* ---------------------------------------------------------------------
     Appending text
     --------------------------------------------------------------------- */

  /** No two adjacent U+0020 spaces. */
  predicate NoDoubleSpace(s: string)
  {
    forall i :: 0 <= i < |s| - 1 ==> !(s[i] == ' ' && s[i + 1] == ' ')
  }

  /** Text as `append` leaves it: no leading space and no space runs. */
  predicate Tidy(s: string)
  {
    NoDoubleSpace(s) && (|s| > 0 ==> s[0] != ' ')
  }

  /** The chars other than U+0020, in order. */
  function NonSpaces(s: string): (r: string)
    ensures |r| <= |s|
    ensures ' ' !in r
  {
    if |s| == 0 then []
    else (if s[0] == ' ' then [] else [s[0]]) + NonSpaces(s[1..])
  }

  /** Drops every space that follows a space, `pre` being the char before
      `s`; tabs and other blanks are kept as they are. */
  function Collapse(s: string, pre: char): (r: string)
    ensures |r| <= |s|
    ensures pre == ' ' && |r| > 0 ==> r[0] != ' '
    ensures NoDoubleSpace(r)
    ensures NonSpaces(r) == NonSpaces(s)
    ensures |s| == 1 ==> r == (if s[0] == ' ' && pre == ' ' then [] else s)
    decreases |s|
  {
    if |s| == 0 then []
    else
      var rest := Collapse(s[1..], s[0]);
      if s[0] != ' ' || pre != ' ' then
        assert NonSpaces([s[0]] + rest) == (if s[0] == ' ' then [] else [s[0]]) + NonSpaces(rest) by {
          assert ([s[0]] + rest)[1..] == rest;
        }
        [s[0]] + rest
      else rest
  }

  /** Collapsing goes char by char: the text can be cut anywhere, the
      second piece starting after the last char of the first.  With the
      one-char case of `Collapse`, this pins the result: a space is dropped
      exactly when the char before it is a space, and every other char,
      a single space included, is kept in place. */
  lemma {:induction false} CollapseConcat(a: string, b: string, pre: char)
    ensures Collapse(a + b, pre) == Collapse(a, pre) + Collapse(b, if |a| == 0 then pre else a[|a| - 1])
    decreases |a|
  {
    if |a| == 0 {
      assert a + b == b;
    } else {
      var head := if a[0] != ' ' || pre != ' ' then [a[0]] else [];
      var pre' := a[|a| - 1];
      CollapseConcat(a[1..], b, a[0]);
      assert (if |a[1..]| == 0 then a[0] else a[1..][|a[1..]| - 1]) == pre';
      HeadTail(a, b);
      CollapseCons(a[0], a[1..] + b, pre);
      CollapseCons(a[0], a[1..], pre);
      ConcatAssoc(head, Collapse(a[1..], a[0]), Collapse(b, pre'));
    }
  }

  lemma CollapseCons(c: char, s: string, pre: char)
    ensures Collapse([c] + s, pre) == (if c != ' ' || pre != ' ' then [c] else []) + Collapse(s, c)
  {
    assert ([c] + s)[1..] == s;
  }

  /** A single space between words survives; a run of spaces shrinks to one. */
  lemma CollapseKeepsWordSpaces()
    ensures Collapse("a b", ' ') == "a b"
    ensures Collapse("a  b", ' ') == "a b"
    ensures Collapse("  a", ' ') == "a"
  {
    assert Collapse("a b", ' ') == "a b" by {
      assert "a b" == ['a'] + " b" && " b" == [' '] + "b";
      CollapseCons('a', " b", ' ');
      CollapseCons(' ', "b", 'a');
    }
    assert Collapse("a  b", ' ') == "a b" by {
      assert "a  b" == ['a'] + "  b" && "  b" == [' '] + " b";
      CollapseCons('a', "  b", ' ');
      CollapseCons(' ', " b", 'a');
      CollapseCons(' ', "b", ' ');
    }
    assert Collapse("  a", ' ') == "a" by {
      assert "  a" == [' '] + " a" && " a" == [' '] + "a";
      CollapseCons(' ', " a", ' ');
      CollapseCons(' ', "a", ' ');
    }
  }

  /** Text that is already tidy comes out unchanged. */
  lemma {:induction false} CollapseTidy(s: string, pre: char)
    requires NoDoubleSpace(s)
    requires pre == ' ' && |s| > 0 ==> s[0] != ' '
    ensures Collapse(s, pre) == s
    decreases |s|
  {
    if |s| > 0 {
      assert NoDoubleSpace(s[1..]) by {
        forall i | 0 <= i < |s[1..]| - 1
          ensures !(s[1..][i] == ' ' && s[1..][i + 1] == ' ')
        {
          assert s[1..][i] == s[i + 1] && s[1..][i + 1] == s[i + 2];
        }
      }
      CollapseTidy(s[1..], s[0]);
      assert [s[0]] + s[1..] == s;
    }
  }

  /** Collapsing twice is collapsing once. */
  lemma CollapseIdempotent(s: string)
    ensures Collapse(Collapse(s, ' '), ' ') == Collapse(s, ' ')
  {
    CollapseTidy(Collapse(s, ' '), ' ');
  }

  function TakeChars(s: string, n: nat): (r: string)
    ensures |r| == Min(n, |s|) && r == s[..|r|]
  {
    s[..Min(n, |s|)]
  }

  /** Adds a chunk of text: the URL/e-mail filter (`prefilter`), Vietnamese
      composition, the first `maxTextLength` chars of this chunk, then the
      space collapsing, starting as if after a space. */
  function Append(d: Detector, v: VietTables, prefilter: string -> string, text: string): (r: Detector)
    ensures r == d.(text := r.text)
    ensures |d.text| <= |r.text| <= |d.text| + d.maxTextLength
    ensures r.text[..|d.text|] == d.text
    ensures var added := r.text[|d.text|..];
      && Tidy(added)
      && NonSpaces(added) == NonSpaces(TakeChars(NormalizeVi(v, prefilter(text)), d.maxTextLength))
    ensures r.text == d.text + Collapse(TakeChars(NormalizeVi(v, prefilter(text)), d.maxTextLength), ' ')
  {
    var added := Collapse(TakeChars(NormalizeVi(v, prefilter(text)), d.maxTextLength), ' ');
    assert (d.text + added)[|d.text|..] == added;
    d.(text := d.text + added)
  }

  lemma TidyConcat(a: string, b: string)
    requires Tidy(a) && Tidy(b)
    ensures Tidy(a + b)
  {
    var s := a + b;
    forall i | 0 <= i < |s| - 1
      ensures !(s[i] == ' ' && s[i + 1] == ' ')
    {
      if i + 1 < |a| {
        assert s[i] == a[i] && s[i + 1] == a[i + 1];
      } else if i + 1 == |a| {
        assert s[i + 1] == b[0];
      } else {
        assert s[i] == b[i - |a|] && s[i + 1] == b[i - |a| + 1];
      }
    }
  }

  /** Successive appends never produce a leading space or a space run. */
  lemma AppendKeepsTidy(d: Detector, v: VietTables, prefilter: string -> string, text: string)
    requires Tidy(d.text)
    ensures Tidy(Append(d, v, prefilter, text).text)
  {
    var r := Append(d, v, prefilter, text);
    assert r.text == d.text + r.text[|d.text|..];
    TidyConcat(d.text, r.text[|d.text|..]);
  }

  /* ---------------------------------------------------------------------
     Cleaning
     --------------------------------------------------------------------- */

  /** `'A'..='z'`, which also takes in `[\]^_` and the backquote. */
  predicate InLatinRange(c: char)
  {
    'A' <= c <= 'z'
  }

  /** A char from U+0300 up in a known block other than Latin Extended
      Additional. */
  predicate IsNonLatin(blockOf: char -> Option<Block>, c: char)
  {
    !InLatinRange(c) && c >= '\U{0300}' && blockOf(c).Some? && blockOf(c).value != LatinExtendedAdditional
  }

  function LatinCount(s: string): (r: nat)
    ensures r <= |s|
  {
    if |s| == 0 then 0 else (if InLatinRange(s[0]) then 1 else 0) + LatinCount(s[1..])
  }

  function NonLatinCount(blockOf: char -> Option<Block>, s: string): (r: nat)
    ensures r <= |s|
  {
    if |s| == 0 then 0 else (if IsNonLatin(blockOf, s[0]) then 1 else 0) + NonLatinCount(blockOf, s[1..])
  }

  /** The text without its `'A'..='z'` chars, the rest in order. */
  function StripLatin(s: string): (r: string)
    ensures |r| == |s| - LatinCount(s)
    ensures forall i :: 0 <= i < |r| ==> !InLatinRange(r[i]) && r[i] in s
    ensures forall c :: c in s && !InLatinRange(c) ==> c in r
    ensures |s| == 1 ==> r == (if InLatinRange(s[0]) then [] else s)
  {
    if |s| == 0 then []
    else (if InLatinRange(s[0]) then [] else [s[0]]) + StripLatin(s[1..])
  }

  /** Stripping is a filter: it can be applied piece by piece, so with the
      one-char case of `StripLatin` the kept chars stay in order, each
      exactly once. */
  lemma {:induction false} StripLatinConcat(a: string, b: string)
    ensures StripLatin(a + b) == StripLatin(a) + StripLatin(b)
    decreases |a|
  {
    if |a| == 0 {
      assert a + b == b;
    } else {
      var head := if InLatinRange(a[0]) then [] else [a[0]];
      StripLatinConcat(a[1..], b);
      HeadTail(a, b);
      StripLatinCons(a[0], a[1..] + b);
      StripLatinCons(a[0], a[1..]);
      ConcatAssoc(head, StripLatin(a[1..]), StripLatin(b));
    }
  }

  lemma StripLatinCons(c: char, s: string)
    ensures StripLatin([c] + s) == (if InLatinRange(c) then [] else [c]) + StripLatin(s)
  {
    assert ([c] + s)[1..] == s;
  }

  lemma {:induction false} StripLatinCounts(blockOf: char -> Option<Block>, s: string)
    ensures LatinCount(StripLatin(s)) == 0
    ensures NonLatinCount(blockOf, StripLatin(s)) == NonLatinCount(blockOf, s)
  {
    if |s| > 0 {
      StripLatinCounts(blockOf, s[1..]);
      var r := StripLatin(s[1..]);
      if InLatinRange(s[0]) {
        assert StripLatin(s) == r;
      } else {
        assert StripLatin(s) == [s[0]] + r;
        assert ([s[0]] + r)[1..] == r;
      }
    }
  }

  lemma {:induction false} StripLatinNoLatin(s: string)
    requires LatinCount(s) == 0
    ensures StripLatin(s) == s
  {
    if |s| > 0 {
      StripLatinNoLatin(s[1..]);
    }
  }

  /** Drops the Latin-range chars when the non-Latin ones outnumber them
      more than two to one; otherwise leaves the text alone. */
  function CleaningText(blockOf: char -> Option<Block>, text: string): (r: string)
    ensures 2 * LatinCount(text) >= NonLatinCount(blockOf, text) ==> r == text
    ensures 2 * LatinCount(text) < NonLatinCount(blockOf, text) ==>
      && LatinCount(r) == 0
      && |r| == |text| - LatinCount(text)
      && NonLatinCount(blockOf, r) == NonLatinCount(blockOf, text)
      && (forall c :: c in text && !InLatinRange(c) ==> c in r)
      && r == StripLatin(text)
    ensures forall i :: 0 <= i < |r| ==> r[i] in text
  {
    if 2 * LatinCount(text) < NonLatinCount(blockOf, text) then
      StripLatinCounts(blockOf, text);
      StripLatin(text)
    else text
  }

  /** Cleaning a cleaned text changes nothing. */
  lemma CleaningIdempotent(blockOf: char -> Option<Block>, text: string)
    ensures CleaningText(blockOf, CleaningText(blockOf, text)) == CleaningText(blockOf, text)
  {
    var r := CleaningText(blockOf, text);
    if 2 * LatinCount(text) < NonLatinCount(blockOf, text) {
      StripLatinNoLatin(r);
    }
  }

  /* ---------------------------------------------------------------------
     N-gram extraction
     --------------------------------------------------------------------- */

  /** Bytes of the UTF-8 encoding of one char. */
  function CharUtf8Len(c: char): (r: nat)
    ensures 1 <= r <= 4
    ensures r == 1 <==> c as int < 0x80
  {
    if c as int < 0x80 then 1
    else if c as int < 0x800 then 2
    else if c as int < 0x1_0000 then 3
    else 4
  }

  /** `String::len`: the length in UTF-8 bytes. */
  function Utf8Len(s: string): (r: nat)
    ensures |s| <= r <= 4 * |s|
  {
    if |s| == 0 then 0 else CharUtf8Len(s[0]) + Utf8Len(s[1..])
  }

  predicate IsAscii(s: string)
  {
    forall i :: 0 <= i < |s| ==> s[i] as int < 0x80
  }

  /** Byte length and char count agree exactly on ASCII text. */
  lemma {:induction false} Utf8LenAscii(s: string)
    ensures Utf8Len(s) == |s| <==> IsAscii(s)
  {
    if |s| > 0 {
      Utf8LenAscii(s[1..]);
      assert IsAscii(s) <==> s[0] as int < 0x80 && IsAscii(s[1..]) by {
        if s[0] as int < 0x80 && IsAscii(s[1..]) {
          forall i | 0 <= i < |s| ensures s[i] as int < 0x80 {
            if i > 0 { assert s[i] == s[1..][i - 1]; }
          }
        }
      }
    }
  }

  /** Every gram has one to three chars, is not a lone space and is in
      the table. */
  predicate KnownGrams(known: set<string>, r: seq<string>)
  {
    forall i :: 0 <= i < |r| ==> 1 <= |r[i]| <= N_GRAM && r[i] != " " && r[i] in known
  }

  lemma KnownGramsConcat(known: set<string>, a: seq<string>, b: seq<string>)
    requires KnownGrams(known, a) && KnownGrams(known, b)
    ensures KnownGrams(known, a + b)
  {
    forall i | 0 <= i < |a + b| ensures 1 <= |(a + b)[i]| <= N_GRAM && (a + b)[i] != " " && (a + b)[i] in known {
      if i >= |a| { assert (a + b)[i] == b[i - |a|]; }
    }
  }

  /** The grams one window state contributes: for n = 1, 2, 3, stopping
      once the buffer holds fewer than n BYTES, the last n chars when they
      are not a lone space and are in the table. */
  function Emit(known: set<string>, grams: string, n: nat): (r: seq<string>)
    requires 1 <= n
    ensures KnownGrams(known, r)
    decreases N_GRAM + 1 - n
  {
    if n > N_GRAM || Utf8Len(grams) < n then []
    else
      var w := LastN(grams, n);
      var head := if |w| > 0 && w != " " && w in known then [w] else [];
      var rest := Emit(known, grams, n + 1);
      KnownGramsConcat(known, head, rest);
      head + rest
  }

  /** Runs the window over the text; a state with `capitalword` set
      contributes nothing. */
  function Extract(t: CharTables, known: set<string>, g: NGram, s: string): (r: seq<string>)
    ensures KnownGrams(known, r)
    decreases |s|
  {
    if |s| == 0 then []
    else
      var g' := AddChar(t, g, s[0]);
      var head := if g'.capitalword then [] else Emit(known, g'.grams, 1);
      var rest := Extract(t, known, g', s[1..]);
      KnownGramsConcat(known, head, rest);
      head + rest
  }

  function ExtractNgrams(t: CharTables, known: set<string>, text: string): (r: seq<string>)
    ensures KnownGrams(known, r)
  {
    Extract(t, known, NewNGram(), text)
  }

  /** The gram `get` would give, when the table knows it. */
  function KnownGram(known: set<string>, o: Option<string>): seq<string>
  {
    if o.Some? && o.value in known then [o.value] else []
  }

  /** On an ASCII buffer, extraction yields exactly the known grams that
      `get(1)`, `get(2)`, `get(3)` give. */
  lemma AsciiEmitMatchesGet(known: set<string>, g: NGram)
    requires Valid(g) && !g.capitalword && IsAscii(g.grams)
    ensures Emit(known, g.grams, 1)
         == KnownGram(known, Get(g, 1)) + KnownGram(known, Get(g, 2)) + KnownGram(known, Get(g, 3))
  {
    var s := g.grams;
    var k1, k2, k3 := KnownGram(known, Get(g, 1)), KnownGram(known, Get(g, 2)), KnownGram(known, Get(g, 3));
    assert Utf8Len(s) == |s| by {
      Utf8LenAscii(s);
    }
    assert Emit(known, s, 4) == [];
    assert Emit(known, s, 3) == k3 by {
      EmitAsGet(known, g, 3);
    }
    assert Emit(known, s, 2) == k2 + k3 by {
      EmitAsGet(known, g, 2);
    }
    assert Emit(known, s, 1) == k1 + (k2 + k3) by {
      EmitAsGet(known, g, 1);
    }
    ConcatAssoc(k1, k2, k3);
  }

  lemma ConcatAssoc<T>(a: seq<T>, b: seq<T>, c: seq<T>)
    ensures a + (b + c) == a + b + c
  {
  }

  /** A non-empty sequence is its head followed by its tail, also in front
      of another sequence. */
  lemma HeadTail<T>(a: seq<T>, b: seq<T>)
    requires |a| > 0
    ensures [a[0]] + a[1..] == a && [a[0]] + (a[1..] + b) == a + b
  {
  }

  /** One step of `AsciiEmitMatchesGet`: the gram emitted at size `n`. */
  lemma EmitAsGet(known: set<string>, g: NGram, n: nat)
    requires Valid(g) && !g.capitalword && Utf8Len(g.grams) == |g.grams|
    requires 1 <= n <= N_GRAM
    ensures Emit(known, g.grams, n) == KnownGram(known, Get(g, n)) + Emit(known, g.grams, n + 1)
  {
    var s := g.grams;
    if n <= |s| {
      var w := LastN(s, n);
      var here := if |w| > 0 && w != " " && w in known then [w] else [];
      assert Emit(known, s, n) == here + Emit(known, s, n + 1);
      KnownLastIsGet(known, g, n);
    } else {
      assert Emit(known, s, n) == [] && Emit(known, s, n + 1) == [];
      assert Get(g, n) == None;
    }
  }

  /** The last `n` chars pass the emit test exactly when `get(n)` gives
      them and the table knows them. */
  lemma KnownLastIsGet(known: set<string>, g: NGram, n: nat)
    requires !g.capitalword && 1 <= n <= N_GRAM && n <= |g.grams|
    ensures var w := LastN(g.grams, n);
      (if |w| > 0 && w != " " && w in known then [w] else []) == KnownGram(known, Get(g, n))
  {
    if n == 1 {
      LastCharIsGet(g);
    } else {
      LongerIsGet(g, n);
    }
  }

  /** `get(1)` gives the last char unless it is the space sentinel. */
  lemma LastCharIsGet(g: NGram)
    requires !g.capitalword && 1 <= |g.grams|
    ensures var w := LastN(g.grams, 1);
      && |w| == 1
      && (w == " " ==> Get(g, 1) == None)
      && (w != " " ==> Get(g, 1) == Some(w))
  {
    var s := g.grams;
    assert LastN(s, 1) == [s[|s| - 1]];
  }

  /** `get(2)` and `get(3)` give the last chars, never a lone space. */
  lemma LongerIsGet(g: NGram, n: nat)
    requires !g.capitalword && 2 <= n <= N_GRAM && n <= |g.grams|
    ensures var w := LastN(g.grams, n); w != " " && Get(g, n) == Some(w)
  {
    assert |LastN(g.grams, n)| == n && |" "| == 1;
  }

  /** The byte-length test in action: with the buffer `" ж"` (three bytes,
      two chars) the trigram step takes the last three chars, which are the
      whole two-char buffer again, so the bigram is emitted twice, while
      `get(3)` gives nothing. */
  lemma MultibyteRepeatsGram()
    ensures var g := NGram(" ж", false);
      && Valid(g)
      && Get(g, 3) == None
      && Emit({"ж", " ж"}, g.grams, 1) == ["ж", " ж", " ж"]
  {
    var s := " ж";
    var known := {"ж", " ж"};
    assert Utf8Len(s) == 3 by {
      TwoByteLen();
    }
    assert s in known && "ж" in known && s != " " && "ж" != " ";
    assert Emit(known, s, 3) == [s] + Emit(known, s, 4) by {
      assert LastN(s, 3) == s;
    }
    assert Emit(known, s, 2) == [s] + Emit(known, s, 3) by {
      assert LastN(s, 2) == s;
    }
    assert Emit(known, s, 1) == ["ж"] + Emit(known, s, 2) by {
      assert LastN(s, 1) == "ж";
    }
  }

  lemma TwoByteLen()
    ensures Utf8Len(" ж") == 3
  {
    var s := " ж";
    assert CharUtf8Len(s[0]) == 1 && CharUtf8Len(s[1]) == 2;
    assert s[1..][1..] == [];
  }

  /** What one window state contributes to extraction: nothing while
      `capitalword` is set, else the grams `Emit` finds in its buffer. */
  function StateGrams(known: set<string>, st: NGram): seq<string>
  {
    if st.capitalword then [] else Emit(known, st.grams, 1)
  }

  /** The contributions of a run of window states, in order. */
  function EmittedBy(known: set<string>, sts: seq<NGram>): seq<string>
  {
    if |sts| == 0 then [] else StateGrams(known, sts[0]) + EmittedBy(known, sts[1..])
  }

  /** The grams `get(1)`, `get(2)`, `get(3)` give in one state, when the
      table knows them. */
  function GetGrams(known: set<string>, st: NGram): seq<string>
  {
    KnownGram(known, Get(st, 1)) + KnownGram(known, Get(st, 2)) + KnownGram(known, Get(st, 3))
  }

  /** The reference extraction: the known `get` grams of each state, in
      order. */
  function GramsOfStates(known: set<string>, sts: seq<NGram>): seq<string>
  {
    if |sts| == 0 then [] else GetGrams(known, sts[0]) + GramsOfStates(known, sts[1..])
  }

  /** Every char of the text normalises to an ASCII char. */
  predicate NormalizedAscii(t: CharTables, s: string)
  {
    forall i :: 0 <= i < |s| ==> Normalize(t, s[i]) as int < 0x80
  }

  /** The scan visits the window states in order, and a state with the
      `capitalword` flag set contributes nothing, for any text. */
  lemma {:induction false} ExtractOverStates(t: CharTables, known: set<string>, g: NGram, s: string)
    ensures Extract(t, known, g, s) == EmittedBy(known, States(t, g, s))
    decreases |s|
  {
    if |s| > 0 {
      var g' := AddChar(t, g, s[0]);
      var sts := States(t, g, s);
      ExtractOverStates(t, known, g', s[1..]);
      assert sts[1..] == States(t, g', s[1..]);
    }
  }

  /** Adding a char that normalises to ASCII keeps an ASCII buffer ASCII. */
  lemma AddCharKeepsAscii(t: CharTables, g: NGram, ch: char)
    requires IsAscii(g.grams) && Normalize(t, ch) as int < 0x80
    ensures IsAscii(AddChar(t, g, ch).grams)
  {
    var c := Normalize(t, ch);
    var last := LastOr(g.grams);
    if !(last == ' ' && c == ' ') {
      var kept := if last == ' ' then " " else if |g.grams| >= N_GRAM then g.grams[1..] else g.grams;
      assert IsAscii(kept);
      assert AddChar(t, g, ch).grams == kept + [c];
    }
  }

  /** From a valid ASCII window, every state over a text that normalises to
      ASCII is valid and ASCII. */
  lemma {:induction false} StatesValidAscii(t: CharTables, g: NGram, s: string)
    requires Valid(g) && IsAscii(g.grams) && NormalizedAscii(t, s)
    ensures forall i :: 0 <= i < |s| ==> Valid(States(t, g, s)[i]) && IsAscii(States(t, g, s)[i].grams)
    decreases |s|
  {
    if |s| > 0 {
      var g' := AddChar(t, g, s[0]);
      AddCharKeepsAscii(t, g, s[0]);
      StatesValidAscii(t, g', s[1..]);
      var sts := States(t, g, s);
      forall i | 0 <= i < |s| ensures Valid(sts[i]) && IsAscii(sts[i].grams) {
        if i > 0 {
          assert sts[i] == States(t, g', s[1..])[i - 1];
        }
      }
    }
  }

  /** On valid ASCII states, what extraction emits is the reference. */
  lemma {:induction false} EmittedIsGets(known: set<string>, sts: seq<NGram>)
    requires forall i :: 0 <= i < |sts| ==> Valid(sts[i]) && IsAscii(sts[i].grams)
    ensures EmittedBy(known, sts) == GramsOfStates(known, sts)
    decreases |sts|
  {
    if |sts| > 0 {
      var st := sts[0];
      if st.capitalword {
        assert Get(st, 1) == None && Get(st, 2) == None && Get(st, 3) == None;
      } else {
        AsciiEmitMatchesGet(known, st);
      }
      EmittedIsGets(known, sts[1..]);
    }
  }

  /** State `st` gives `w` through `get`, and the table knows `w`. */
  predicate Gives(known: set<string>, st: NGram, w: string)
  {
    w in known && exists n :: 1 <= n <= N_GRAM && Get(st, n) == Some(w)
  }

  lemma KnownGramMember(known: set<string>, o: Option<string>, w: string)
    ensures w in KnownGram(known, o) <==> o == Some(w) && w in known
  {
  }

  lemma GetGramsMember(known: set<string>, st: NGram, w: string)
    ensures w in GetGrams(known, st) <==> Gives(known, st, w)
  {
    var o1, o2, o3 := Get(st, 1), Get(st, 2), Get(st, 3);
    KnownGramMember(known, o1, w);
    KnownGramMember(known, o2, w);
    KnownGramMember(known, o3, w);
    var a, b, c := KnownGram(known, o1), KnownGram(known, o2), KnownGram(known, o3);
    assert w in GetGrams(known, st) <==> w in a || w in b || w in c;
    assert Gives(known, st, w) <==> w in known && (o1 == Some(w) || o2 == Some(w) || o3 == Some(w)) by {
      if w in known && exists n :: 1 <= n <= N_GRAM && Get(st, n) == Some(w) {
        var n :| 1 <= n <= N_GRAM && Get(st, n) == Some(w);
        assert n == 1 || n == 2 || n == 3;
      }
    }
  }

  /** A gram is in the reference exactly when some state gives it. */
  lemma {:induction false} GramsOfStatesMember(known: set<string>, sts: seq<NGram>, w: string)
    ensures w in GramsOfStates(known, sts) <==> exists i :: 0 <= i < |sts| && Gives(known, sts[i], w)
    decreases |sts|
  {
    if |sts| > 0 {
      GramsOfStatesMember(known, sts[1..], w);
      GetGramsMember(known, sts[0], w);
      if exists i :: 0 <= i < |sts| && Gives(known, sts[i], w) {
        var i :| 0 <= i < |sts| && Gives(known, sts[i], w);
        if i > 0 {
          assert sts[1..][i - 1] == sts[i];
        }
      }
      if exists i :: 0 <= i < |sts| - 1 && Gives(known, sts[1..][i], w) {
        var i :| 0 <= i < |sts| - 1 && Gives(known, sts[1..][i], w);
        assert sts[i + 1] == sts[1..][i];
      }
    }
  }

  /** For a text that normalises to ASCII, `extract_ngrams` yields exactly
      the known grams that `get(1)`, `get(2)`, `get(3)` give after each
      char, in order: a gram is extracted exactly when some window state
      gives it, and nothing is extracted exactly when no state gives a
      known gram. */
  lemma ExtractNgramsMeaning(t: CharTables, known: set<string>, text: string, w: string)
    requires NormalizedAscii(t, text)
    ensures ExtractNgrams(t, known, text) == GramsOfStates(known, States(t, NewNGram(), text))
    ensures w in ExtractNgrams(t, known, text) <==>
      exists i :: 0 <= i < |text| && Gives(known, States(t, NewNGram(), text)[i], w)
    ensures ExtractNgrams(t, known, text) == [] <==>
      forall i, u :: 0 <= i < |text| ==> !Gives(known, States(t, NewNGram(), text)[i], u)
  {
    var sts := States(t, NewNGram(), text);
    ExtractOverStates(t, known, NewNGram(), text);
    StatesValidAscii(t, NewNGram(), text);
    EmittedIsGets(known, sts);
    GramsOfStatesMember(known, sts, w);
    var r := ExtractNgrams(t, known, text);
    if r != [] {
      GramsOfStatesMember(known, sts, r[0]);
    } else {
      forall i, u | 0 <= i < |text| ensures !Gives(known, sts[i], u) {
        GramsOfStatesMember(known, sts, u);
      }
    }
  }

  /* ---------------------------------------------------------------------
     Probability arithmetic over reals
     --------------------------------------------------------------------- */

  function Sum(s: seq<real>): real
  {
    if |s| == 0 then 0.0 else s[0] + Sum(s[1..])
  }

  predicate Live(p: seq<real>)
  {
    forall i :: 0 <= i < |p| ==> p[i] > 0.0
  }

  predicate NonNeg(p: seq<real>)
  {
    forall i :: 0 <= i < |p| ==> p[i] >= 0.0
  }

  /** Every vector of the table has at least `n` entries, none negative. */
  predicate Covers(table: ProbTable, n: nat)
  {
    forall w :: w in table ==> |table[w]| >= n && NonNeg(table[w])
  }

  lemma {:induction false} SumPositive(p: seq<real>)
    requires Live(p) && |p| > 0
    ensures Sum(p) > 0.0
  {
    if |p| > 1 {
      SumPositive(p[1..]);
    }
  }

  lemma SumNonZero(p: seq<real>)
    requires Live(p)
    ensures |p| == 0 || Sum(p) != 0.0
  {
    if |p| > 0 {
      SumPositive(p);
    }
  }

  lemma {:induction false} SumNonNeg(p: seq<real>)
    requires NonNeg(p)
    ensures Sum(p) >= 0.0
  {
    if |p| > 0 {
      SumNonNeg(p[1..]);
    }
  }

  /** Multiplies entry i by `alpha / BASE_FREQ + row[i]`. */
  function Weigh(prob: seq<real>, row: seq<real>, alpha: real): (r: seq<real>)
    requires |row| >= |prob|
    ensures |r| == |prob|
    ensures forall i :: 0 <= i < |r| ==> r[i] == prob[i] * (alpha / BASE_FREQ + row[i])
  {
    seq(|prob|, i requires 0 <= i < |prob| => prob[i] * (alpha / BASE_FREQ + row[i]))
  }

  /** One Bayesian update: a word the table does not know changes nothing
      and reports false. */
  function UpdateLangProb(table: ProbTable, prob: seq<real>, word: string, alpha: real): (r: (seq<real>, bool))
    requires word in table ==> |table[word]| >= |prob|
    ensures r.1 <==> word in table
    ensures !r.1 ==> r.0 == prob
    ensures |r.0| == |prob|
    ensures r.1 ==> forall i :: 0 <= i < |prob| ==> r.0[i] == prob[i] * (alpha / BASE_FREQ + table[word][i])
  {
    if word !in table then (prob, false)
    else (Weigh(prob, table[word], alpha), true)
  }

  /** With a positive alpha and a non-negative table, positive
      probabilities stay positive. */
  lemma UpdateKeepsLive(table: ProbTable, prob: seq<real>, word: string, alpha: real)
    requires Covers(table, |prob|) && Live(prob) && alpha > 0.0
    ensures Live(UpdateLangProb(table, prob, word, alpha).0)
  {
    var r := UpdateLangProb(table, prob, word, alpha).0;
    if word in table {
      forall i | 0 <= i < |prob| ensures r[i] > 0.0 {
        assert table[word][i] >= 0.0;
        assert alpha / BASE_FREQ > 0.0;
      }
    }
  }

  /** Divides every entry by `c`. */
  function Scale(s: seq<real>, c: real): (r: seq<real>)
    requires c != 0.0
    ensures |r| == |s|
    ensures forall i :: 0 <= i < |r| ==> r[i] == s[i] / c
  {
    if |s| == 0 then [] else [s[0] / c] + Scale(s[1..], c)
  }

  lemma ScaleLive(s: seq<real>, c: real)
    requires Live(s) && c > 0.0
    ensures Live(Scale(s, c))
  {
    var r := Scale(s, c);
    forall i | 0 <= i < |r| ensures r[i] > 0.0 {
      assert r[i] == s[i] / c;
    }
  }

  /** Division distributes over a sum. */
  lemma DivAdd(a: real, b: real, c: real)
    requires c != 0.0
    ensures (a + b) / c == a / c + b / c
  {
    var x, y := a / c, b / c;
    assert x * c == a && y * c == b;
    assert (x + y) * c == a + b;
  }

  lemma {:induction false} SumScale(s: seq<real>, c: real)
    requires c != 0.0
    ensures Sum(Scale(s, c)) == Sum(s) / c
  {
    if |s| > 0 {
      SumScale(s[1..], c);
      assert Scale(s, c)[1..] == Scale(s[1..], c);
      DivAdd(s[0], Sum(s[1..]), c);
    }
  }

  /** Dividing by the sum gives entries that sum to one. */
  lemma ScaledSumIsOne(s: seq<real>)
    requires Sum(s) != 0.0
    ensures Sum(Scale(s, Sum(s))) == 1.0
  {
    var c := Sum(s);
    SumScale(s, c);
    assert c / c == 1.0;
  }

  /** The largest entry, or `acc` when that is larger. */
  function Peak(s: seq<real>, acc: real): (r: real)
    ensures r >= acc
    ensures forall i :: 0 <= i < |s| ==> s[i] <= r
    ensures r == acc || exists i :: 0 <= i < |s| && s[i] == r
  {
    if |s| == 0 then acc
    else
      var r := Peak(s[1..], if acc < s[0] then s[0] else acc);
      assert forall i :: 1 <= i < |s| ==> s[i] == s[1..][i - 1];
      r
  }

  /** Divides by the sum and returns the largest entry, or 0 for no
      entries.  A zero sum over some entries would give NaN in the
      source and is excluded. */
  function NormalizeProb(prob: seq<real>): (r: (seq<real>, real))
    requires |prob| == 0 || Sum(prob) != 0.0
    ensures |r.0| == |prob|
    ensures forall i :: 0 <= i < |prob| ==> r.0[i] == prob[i] / Sum(prob)
    ensures |prob| > 0 ==> Sum(r.0) == 1.0
    ensures Live(prob) ==> Live(r.0)
    ensures r.1 >= 0.0 && forall i :: 0 <= i < |prob| ==> r.0[i] <= r.1
    ensures r.1 == 0.0 || exists i :: 0 <= i < |prob| && r.0[i] == r.1
  {
    if |prob| == 0 then ([], 0.0)
    else
      var sump := Sum(prob);
      var norm := Scale(prob, sump);
      assert Sum(norm) == 1.0 by {
        ScaledSumIsOne(prob);
      }
      assert Live(prob) ==> Live(norm) by {
        if Live(prob) {
          SumPositive(prob);
          ScaleLive(prob, sump);
        }
      }
      (norm, Peak(norm, 0.0))
  }

  /* ---------------------------------------------------------------------
     Trials
     --------------------------------------------------------------------- */

  /** The random draws: the standard normal sample of each trial, and the
      uniform index drawn at each step of each trial, reduced to the
      number of grams. */
  datatype Draws = Draws(gaussian: nat -> real, sample: (nat, nat) -> nat)

  /** The probabilities of one trial and the step it stopped at; a trial
      started at step 0 made `last + 1` updates. */
  datatype Trial = Trial(prob: seq<real>, last: nat)

  /** One trial from step `i`: update with a drawn gram; every fifth step
      normalise, and stop once some probability exceeds `CONV_THRESHOLD`
      or the step limit is reached.  The stop test runs at steps 0, 5, ...,
      1000, so a trial makes at most 1001 updates. */
  function Iterate(table: ProbTable, ngrams: seq<string>, prob: seq<real>, alpha: real,
                   draw: nat -> nat, i: nat): (r: Trial)
    requires |ngrams| > 0 && i <= ITERATION_LIMIT
    requires Live(prob) && alpha > 0.0 && Covers(table, |prob|)
    ensures |r.prob| == |prob| && Live(r.prob)
    ensures |prob| > 0 ==> Sum(r.prob) == 1.0
    ensures i <= r.last <= ITERATION_LIMIT && r.last % 5 == 0
    ensures r.last < ITERATION_LIMIT ==> exists j :: 0 <= j < |r.prob| && r.prob[j] > CONV_THRESHOLD
    decreases ITERATION_LIMIT - i
  {
    var word := ngrams[draw(i) % |ngrams|];
    var prob' := UpdateLangProb(table, prob, word, alpha).0;
    UpdateKeepsLive(table, prob, word, alpha);
    if i % 5 == 0 then
      SumNonZero(prob');
      var (norm, maxp) := NormalizeProb(prob');
      if maxp > CONV_THRESHOLD || i >= ITERATION_LIMIT then Trial(norm, i)
      else Iterate(table, ngrams, norm, alpha, draw, i + 1)
    else
      Iterate(table, ngrams, prob', alpha, draw, i + 1)
  }

  /** The length of the starting vector: the prior's, or the language count. */
  function ProbLen(d: Detector): nat
  {
    if d.priorMap.Some? then |d.priorMap.value| else |d.langlist|
  }

  /** The prior when one is set, otherwise the uniform distribution. */
  function InitProbability(d: Detector): (r: seq<real>)
    ensures |r| == ProbLen(d)
    ensures d.priorMap.Some? ==> r == d.priorMap.value
    ensures d.priorMap.None? ==> Live(r) && (|r| > 0 ==> Sum(r) == 1.0)
  {
    match d.priorMap
    case Some(prior) => prior
    case None =>
      var n := |d.langlist|;
      if n == 0 then []
      else
        var u := Uniform(n, n);
        UniformSum(n, n);
        u
  }

  /** `k` copies of `1/n`. */
  function Uniform(k: nat, n: nat): (r: seq<real>)
    requires n > 0
    ensures |r| == k && Live(r)
  {
    if k == 0 then [] else [1.0 / n as real] + Uniform(k - 1, n)
  }

  lemma {:induction false} UniformSum(k: nat, n: nat)
    requires n > 0
    ensures Sum(Uniform(k, n)) == k as real / n as real
  {
    if k > 0 {
      UniformSum(k - 1, n);
      assert Uniform(k, n)[1..] == Uniform(k - 1, n);
      assert 1.0 / n as real + (k - 1) as real / n as real == k as real / n as real;
    }
  }

  /** Adds one trial's probabilities, divided by the trial count. */
  function Accumulate(acc: seq<real>, prob: seq<real>, n: nat): (r: seq<real>)
    requires n > 0 && |prob| >= |acc|
    ensures |r| == |acc|
  {
    if |acc| == 0 then [] else [acc[0] + prob[0] / n as real] + Accumulate(acc[1..], prob[1..], n)
  }

  /** Each running total gains its language's probability over `n`. */
  lemma {:induction false} AccumulateAt(acc: seq<real>, prob: seq<real>, n: nat)
    requires n > 0 && |prob| >= |acc|
    ensures forall j :: 0 <= j < |acc| ==> Accumulate(acc, prob, n)[j] == acc[j] + prob[j] / n as real
  {
    if |acc| > 0 {
      AccumulateAt(acc[1..], prob[1..], n);
      var r := Accumulate(acc, prob, n);
      forall j | 0 <= j < |acc| ensures r[j] == acc[j] + prob[j] / n as real {
        if j > 0 {
          assert r[j] == Accumulate(acc[1..], prob[1..], n)[j - 1];
        }
      }
    }
  }

  lemma {:induction false} SumAccumulate(acc: seq<real>, prob: seq<real>, n: nat)
    requires n > 0 && |prob| == |acc|
    ensures Sum(Accumulate(acc, prob, n)) == Sum(acc) + Sum(prob) / n as real
  {
    if |acc| > 0 {
      SumAccumulate(acc[1..], prob[1..], n);
      assert Accumulate(acc, prob, n)[1..] == Accumulate(acc[1..], prob[1..], n);
      DivAdd(prob[0], Sum(prob[1..]), n as real);
    }
  }

  /** `k` shares of `1/n`. */
  function Shares(k: nat, n: nat): real
  {
    if k == 0 || n == 0 then 0.0 else 1.0 / n as real + Shares(k - 1, n)
  }

  lemma {:induction false} SharesWhole(k: nat, n: nat)
    requires n > 0
    ensures Shares(k, n) == k as real / n as real
  {
    if k > 0 {
      SharesWhole(k - 1, n);
      assert 1.0 / n as real + (k - 1) as real / n as real == k as real / n as real;
    }
  }

  /** Adding one share and then `k - 1` more adds `k` shares. */
  lemma SharesStep(before: real, middle: real, after: real, k: nat, n: nat)
    requires n > 0 && k > 0
    requires middle == before + Shares(1, n) && after == middle + Shares(k - 1, n)
    ensures after == before + Shares(k, n)
  {
  }

  /** `n` shares of `1/n` make one. */
  lemma SharesAll(n: nat)
    requires n > 0
    ensures Shares(n, n) == 1.0
  {
    SharesWhole(n, n);
    var x := n as real;
    assert x / x == 1.0;
  }

  /** One trial's share of the average: `1/n` of a distribution. */
  lemma AccumulateTrialSum(acc: seq<real>, prob: seq<real>, n: nat)
    requires n > 0 && |prob| >= |acc|
    ensures |prob| == |acc| > 0 && Sum(prob) == 1.0 ==> Sum(Accumulate(acc, prob, n)) == Sum(acc) + Shares(1, n)
  {
    if |prob| == |acc| > 0 && Sum(prob) == 1.0 {
      SumAccumulate(acc, prob, n);
    }
  }

  lemma AccumulateNonNeg(acc: seq<real>, prob: seq<real>, n: nat)
    requires n > 0 && |prob| >= |acc| && Live(prob)
    ensures NonNeg(acc) ==> NonNeg(Accumulate(acc, prob, n))
  {
    var r := Accumulate(acc, prob, n);
    AccumulateAt(acc, prob, n);
    if NonNeg(acc) {
      forall j | 0 <= j < |acc| ensures r[j] >= 0.0 {
        assert prob[j] / n as real > 0.0;
      }
    }
  }

  /** What the trials need to stay clear of index panics and NaN: table
      vectors long enough for the starting vector, which must cover every
      language; a positive prior; a positive alpha in every trial. */
  predicate Runnable(d: Detector, draws: Draws)
  {
    && ProbLen(d) >= |d.langlist|
    && Covers(d.wordLangProbMap, ProbLen(d))
    && (d.priorMap.Some? ==> Live(d.priorMap.value))
    && forall t :: 0 <= t < d.nTrial ==> d.alpha + draws.gaussian(t) * ALPHA_WIDTH > 0.0
  }

  /** The probabilities trial `t` ends with. */
  function TrialProb(d: Detector, ngrams: seq<string>, draws: Draws, t: nat): (r: seq<real>)
    requires Runnable(d, draws) && |ngrams| > 0 && t < d.nTrial
    ensures |r| == ProbLen(d) && Live(r)
    ensures |r| > 0 ==> Sum(r) == 1.0
  {
    var alpha := d.alpha + draws.gaussian(t) * ALPHA_WIDTH;
    Iterate(d.wordLangProbMap, ngrams, InitProbability(d), alpha, i => draws.sample(t, i), 0).prob
  }

  /** The outcome of every trial, in order. */
  function Trials(d: Detector, ngrams: seq<string>, draws: Draws): (r: seq<seq<real>>)
    requires Runnable(d, draws) && |ngrams| > 0
    ensures |r| == d.nTrial
    ensures forall t :: 0 <= t < |r| ==> r[t] == TrialProb(d, ngrams, draws, t)
  {
    seq(d.nTrial, t requires 0 <= t < d.nTrial => TrialProb(d, ngrams, draws, t))
  }

  /** Trial outcomes long enough for `len` languages, all positive. */
  predicate Shaped(trials: seq<seq<real>>, len: nat)
  {
    forall i :: 0 <= i < |trials| ==> |trials[i]| >= len && Live(trials[i])
  }

  /** Trial outcomes that are distributions over exactly `len` languages. */
  predicate Distributions(trials: seq<seq<real>>, len: nat)
  {
    forall i :: 0 <= i < |trials| ==> |trials[i]| == len && Sum(trials[i]) == 1.0
  }

  /** Adds every trial's probabilities, each divided by `n`, to `acc`. */
  function Average(acc: seq<real>, trials: seq<seq<real>>, n: nat): (r: seq<real>)
    requires (n > 0 || |trials| == 0) && Shaped(trials, |acc|)
    ensures |r| == |acc|
    ensures NonNeg(acc) ==> NonNeg(r)
    decreases |trials|
  {
    if |trials| == 0 then acc
    else
      var acc' := Accumulate(acc, trials[0], n);
      assert NonNeg(acc) ==> NonNeg(acc') by {
        AccumulateNonNeg(acc, trials[0], n);
      }
      assert Shaped(trials[1..], |acc'|) by {
        assert forall i :: 0 <= i < |trials| - 1 ==> trials[1..][i] == trials[i + 1];
      }
      Average(acc', trials[1..], n)
  }

  /** Every trial adds a `1/n` share of a distribution to the total. */
  lemma {:induction false} AverageSum(acc: seq<real>, trials: seq<seq<real>>, n: nat)
    requires n > 0 && Shaped(trials, |acc|) && Distributions(trials, |acc|) && |acc| > 0
    ensures Sum(Average(acc, trials, n)) == Sum(acc) + Shares(|trials|, n)
    decreases |trials|
  {
    if |trials| > 0 {
      var acc' := Accumulate(acc, trials[0], n);
      var rest := trials[1..];
      assert forall i :: 0 <= i < |rest| ==> rest[i] == trials[i + 1];
      assert Sum(acc') == Sum(acc) + Shares(1, n) by {
        AccumulateTrialSum(acc, trials[0], n);
      }
      AverageSum(acc', rest, n);
      SharesStep(Sum(acc), Sum(acc'), Sum(Average(acc', rest, n)), |trials|, n);
    }
  }

  function Zeros(n: nat): (r: seq<real>)
    ensures |r| == n && forall i :: 0 <= i < n ==> r[i] == 0.0
  {
    seq(n, _ => 0.0)
  }

  /** Cleans the text and extracts the grams; with none, fails with
      `NoFeatures` (keeping the cleaned text); otherwise averages the
      trials into `langprob`. */
  function DetectBlock(t: CharTables, d: Detector, draws: Draws): (r: Run<()>)
    requires Runnable(d, draws)
    ensures r.detector.text == CleaningText(t.blockOf, d.text)
    ensures r.detector == d.(text := r.detector.text, langprob := r.detector.langprob)
    ensures r.outcome.Err? <==> |ExtractNgrams(t, d.wordLangProbMap.Keys, r.detector.text)| == 0
    ensures r.outcome.Err? ==> r.detector.langprob == d.langprob
    ensures r.outcome.Ok? ==>
      && r.detector.langprob.Some?
      && |r.detector.langprob.value| == |d.langlist|
      && NonNeg(r.detector.langprob.value)
      && (ProbLen(d) == |d.langlist| > 0 && d.nTrial > 0 ==> Sum(r.detector.langprob.value) == 1.0)
  {
    var cleaned := d.(text := CleaningText(t.blockOf, d.text));
    var ngrams := ExtractNgrams(t, d.wordLangProbMap.Keys, cleaned.text);
    if |ngrams| == 0 then Run(cleaned, Err(NoFeatures))
    else
      assert ProbLen(cleaned) == ProbLen(d) && Runnable(cleaned, draws);
      AverageOfTrials(cleaned, ngrams, draws);
      var langprob := Average(Zeros(|d.langlist|), Trials(cleaned, ngrams, draws), d.nTrial);
      Run(cleaned.(langprob := Some(langprob)), Ok(()))
  }

  /** The average of the trials is one non-negative entry per language,
      summing to one when every trial ends with a distribution over the
      listed languages. */
  lemma AverageOfTrials(d: Detector, ngrams: seq<string>, draws: Draws)
    requires Runnable(d, draws) && |ngrams| > 0
    ensures Shaped(Trials(d, ngrams, draws), |d.langlist|)
    ensures var r := Average(Zeros(|d.langlist|), Trials(d, ngrams, draws), d.nTrial);
      && |r| == |d.langlist| && NonNeg(r)
      && (ProbLen(d) == |d.langlist| > 0 && d.nTrial > 0 ==> Sum(r) == 1.0)
  {
    var zeros := Zeros(|d.langlist|);
    assert Sum(zeros) == 0.0 && NonNeg(zeros) by { SumZeros(|d.langlist|); }
    var trials := Trials(d, ngrams, draws);
    assert Shaped(trials, |zeros|);
    if ProbLen(d) == |d.langlist| > 0 && d.nTrial > 0 {
      assert Distributions(trials, |zeros|);
      AverageSum(zeros, trials, d.nTrial);
      SharesAll(d.nTrial);
    }
  }

  lemma {:induction false} SumZeros(n: nat)
    ensures Sum(Zeros(n)) == 0.0
  {
    if n > 0 {
      SumZeros(n - 1);
      assert Zeros(n)[1..] == Zeros(n - 1);
    }
  }

  /* ---------------------------------------------------------------------
     Ranking
     --------------------------------------------------------------------- */

  /** The languages above `PROB_THRESHOLD`, in list order. */
  function Candidates(langlist: seq<string>, prob: seq<real>): (r: seq<Language>)
    ensures forall x :: x in r <==>
      exists j :: 0 <= j < |langlist| && j < |prob| && prob[j] > PROB_THRESHOLD
        && x == Language(Some(langlist[j]), prob[j])
    ensures |langlist| == 1 && |prob| == 1 ==>
      r == (if prob[0] > PROB_THRESHOLD then [Language(Some(langlist[0]), prob[0])] else [])
  {
    if |langlist| == 0 || |prob| == 0 then []
    else
      var rest := Candidates(langlist[1..], prob[1..]);
      var head := if prob[0] > PROB_THRESHOLD then [Language(Some(langlist[0]), prob[0])] else [];
      assert forall x :: x in rest <==>
        exists j :: 1 <= j < |langlist| && j < |prob| && prob[j] > PROB_THRESHOLD
          && x == Language(Some(langlist[j]), prob[j]) by {
        forall x | x in rest
          ensures exists j :: (1 <= j < |langlist| && j < |prob| && prob[j] > PROB_THRESHOLD
            && x == Language(Some(langlist[j]), prob[j]))
        {
          var k :| 0 <= k < |langlist[1..]| && k < |prob[1..]| && prob[1..][k] > PROB_THRESHOLD
            && x == Language(Some(langlist[1..][k]), prob[1..][k]);
          assert langlist[1..][k] == langlist[k + 1] && prob[1..][k] == prob[k + 1];
        }
        forall x, j | 1 <= j < |langlist| && j < |prob| && prob[j] > PROB_THRESHOLD
            && x == Language(Some(langlist[j]), prob[j])
          ensures x in rest
        {
          assert langlist[1..][j - 1] == langlist[j] && prob[1..][j - 1] == prob[j];
        }
      }
      head + rest
  }

  lemma CandidatesCons(l: string, p: real, langlist: seq<string>, prob: seq<real>)
    ensures Candidates([l] + langlist, [p] + prob) ==
      (if p > PROB_THRESHOLD then [Language(Some(l), p)] else []) + Candidates(langlist, prob)
  {
    assert ([l] + langlist)[1..] == langlist && ([p] + prob)[1..] == prob;
  }

  /** The filter works piece by piece: with the one-entry case this makes it
      keep the surviving languages in list order, each as often as listed. */
  lemma {:induction false} CandidatesConcat(l1: seq<string>, l2: seq<string>, p1: seq<real>, p2: seq<real>)
    requires |l1| == |p1|
    ensures Candidates(l1 + l2, p1 + p2) == Candidates(l1, p1) + Candidates(l2, p2)
    decreases |l1|
  {
    if |l1| == 0 {
      assert l1 + l2 == l2 && p1 + p2 == p2;
    } else {
      var head := if p1[0] > PROB_THRESHOLD then [Language(Some(l1[0]), p1[0])] else [];
      CandidatesConcat(l1[1..], l2, p1[1..], p2);
      HeadTail(l1, l2);
      HeadTail(p1, p2);
      CandidatesCons(l1[0], p1[0], l1[1..] + l2, p1[1..] + p2);
      CandidatesCons(l1[0], p1[0], l1[1..], p1[1..]);
      ConcatAssoc(head, Candidates(l1[1..], p1[1..]), Candidates(l2, p2));
    }
  }

  predicate SortedDesc(s: seq<Language>)
  {
    forall i, j :: 0 <= i < j < |s| ==> s[i].prob >= s[j].prob
  }

  /** The entries with probability exactly `v`, in order. */
  function WithProb(s: seq<Language>, v: real): seq<Language>
  {
    if |s| == 0 then [] else (if s[0].prob == v then [s[0]] else []) + WithProb(s[1..], v)
  }

  lemma {:induction false} WithProbConcat(a: seq<Language>, b: seq<Language>, v: real)
    ensures WithProb(a + b, v) == WithProb(a, v) + WithProb(b, v)
  {
    if |a| > 0 {
      WithProbConcat(a[1..], b, v);
      assert (a + b)[1..] == a[1..] + b;
    } else {
      assert a + b == b;
    }
  }

  /** Puts `x` in front of the first entry that is not more probable, so
      it stays ahead of equally probable entries. */
  function InsertDesc(x: Language, s: seq<Language>): (r: seq<Language>)
    ensures multiset(r) == multiset(s) + multiset{x}
  {
    if |s| == 0 || s[0].prob <= x.prob then [x] + s
    else
      assert s == [s[0]] + s[1..];
      [s[0]] + InsertDesc(x, s[1..])
  }

  predicate AllAtMost(s: seq<Language>, p: real)
  {
    forall i :: 0 <= i < |s| ==> s[i].prob <= p
  }

  lemma {:induction false} InsertDescBounded(x: Language, s: seq<Language>, p: real)
    requires AllAtMost(s, p) && x.prob <= p
    ensures AllAtMost(InsertDesc(x, s), p)
  {
    if |s| > 0 && s[0].prob > x.prob {
      assert AllAtMost(s[1..], p) by {
        assert forall i :: 0 <= i < |s| - 1 ==> s[1..][i] == s[i + 1];
      }
      InsertDescBounded(x, s[1..], p);
    }
  }

  /** Inserting into a ranking gives a ranking. */
  lemma {:induction false} InsertDescSorted(x: Language, s: seq<Language>)
    requires SortedDesc(s)
    ensures SortedDesc(InsertDesc(x, s))
  {
    if |s| > 0 && s[0].prob > x.prob {
      var rest := InsertDesc(x, s[1..]);
      assert SortedDesc(s[1..]) && AllAtMost(s[1..], s[0].prob) by {
        assert forall i :: 0 <= i < |s| - 1 ==> s[1..][i] == s[i + 1];
      }
      InsertDescSorted(x, s[1..]);
      InsertDescBounded(x, s[1..], s[0].prob);
      var r := [s[0]] + rest;
      assert forall i :: 1 <= i < |r| ==> r[i] == rest[i - 1];
    }
  }

  lemma SwapEmpty(a: seq<Language>, h: seq<Language>, b: seq<Language>)
    requires a == [] || h == []
    ensures a + (h + b) == h + (a + b)
  {
  }

  lemma {:induction false} InsertDescStable(x: Language, s: seq<Language>, v: real)
    ensures WithProb(InsertDesc(x, s), v) == (if x.prob == v then [x] else []) + WithProb(s, v)
  {
    var here := if x.prob == v then [x] else [];
    if |s| == 0 || s[0].prob <= x.prob {
      WithProbConcat([x], s, v);
    } else {
      var rest := InsertDesc(x, s[1..]);
      var head := WithProb([s[0]], v);
      assert InsertDesc(x, s) == [s[0]] + rest;
      assert WithProb(rest, v) == here + WithProb(s[1..], v) by {
        InsertDescStable(x, s[1..], v);
      }
      assert WithProb([s[0]] + rest, v) == head + WithProb(rest, v) by {
        WithProbConcat([s[0]], rest, v);
      }
      assert WithProb(s, v) == head + WithProb(s[1..], v) by {
        WithProbConcat([s[0]], s[1..], v);
        assert [s[0]] + s[1..] == s;
      }
      assert head == [] || here == [] by {
        if x.prob == v {
          assert s[0].prob != v;
        }
      }
      SwapEmpty(head, here, WithProb(s[1..], v));
    }
  }

  /** A stable sort by decreasing probability. */
  function SortDesc(s: seq<Language>): (r: seq<Language>)
    ensures SortedDesc(r)
    ensures multiset(r) == multiset(s)
  {
    if |s| == 0 then []
    else
      assert s == [s[0]] + s[1..];
      var r := InsertDesc(s[0], SortDesc(s[1..]));
      assert SortedDesc(r) by {
        InsertDescSorted(s[0], SortDesc(s[1..]));
      }
      r
  }

  /** Equally probable entries keep their relative order. */
  lemma {:induction false} SortDescStable(s: seq<Language>, v: real)
    ensures WithProb(SortDesc(s), v) == WithProb(s, v)
  {
    if |s| > 0 {
      SortDescStable(s[1..], v);
      InsertDescStable(s[0], SortDesc(s[1..]), v);
    }
  }

  /** The ranking: exactly the languages above `PROB_THRESHOLD`, most
      probable first, ties in list order. */
  function SortProbability(langlist: seq<string>, prob: seq<real>): (r: seq<Language>)
    ensures forall x :: x in r <==>
      exists j :: 0 <= j < |langlist| && j < |prob| && prob[j] > PROB_THRESHOLD
        && x == Language(Some(langlist[j]), prob[j])
    ensures multiset(r) == multiset(Candidates(langlist, prob))
    ensures SortedDesc(r)
    ensures forall v :: WithProb(r, v) == WithProb(Candidates(langlist, prob), v)
  {
    var c := Candidates(langlist, prob);
    var r := SortDesc(c);
    forall v ensures WithProb(r, v) == WithProb(c, v) {
      SortDescStable(c, v);
    }
    assert forall x :: x in r <==> x in multiset(r);
    assert forall x :: x in c <==> x in multiset(c);
    r
  }

  /* ---------------------------------------------------------------------
     Queries
     --------------------------------------------------------------------- */

  /** Runs the trials only when nothing is cached; the ranking is always
      of the cached vector. */
  function GetProbabilities(t: CharTables, d: Detector, draws: Draws): (r: Run<seq<Language>>)
    requires d.langprob.None? ==> Runnable(d, draws)
    ensures d.langprob.Some? ==> r.detector == d
    ensures d.langprob.None? ==>
      r.detector == DetectBlock(t, d, draws).detector
      && (r.outcome.Err? <==> DetectBlock(t, d, draws).outcome.Err?)
    ensures r.outcome.Err? ==> r.outcome.error == NoFeatures && r.detector.langprob.None?
    ensures r.outcome.Ok? ==>
      r.detector.langprob.Some?
      && r.outcome.value == SortProbability(r.detector.langlist, r.detector.langprob.value)
  {
    if d.langprob.None? then
      var b := DetectBlock(t, d, draws);
      match b.outcome
      case Err(e) => Run(b.detector, Err(e))
      case Ok(_) => Run(b.detector, Ok(SortProbability(b.detector.langlist, b.detector.langprob.value)))
    else
      Run(d, Ok(SortProbability(d.langlist, d.langprob.value)))
  }

  /** Once a ranking has been computed, asking again changes nothing and
      gives the same ranking, whatever the draws. */
  lemma GetProbabilitiesMemo(t: CharTables, d: Detector, draws: Draws, draws': Draws)
    requires d.langprob.None? ==> Runnable(d, draws)
    requires GetProbabilities(t, d, draws).outcome.Ok?
    ensures var first := GetProbabilities(t, d, draws);
      GetProbabilities(t, first.detector, draws') == first
  {
  }

  /** The most probable language's code, or "unknown" when no language is
      above the threshold. */
  function Detect(t: CharTables, d: Detector, draws: Draws): (r: Run<string>)
    requires d.langprob.None? ==> Runnable(d, draws)
    ensures r.detector == GetProbabilities(t, d, draws).detector
    ensures r.outcome.Err? <==> GetProbabilities(t, d, draws).outcome.Err?
    ensures r.outcome.Ok? ==> r.outcome.value == UNKNOWN_LANG || r.outcome.value in r.detector.langlist
    ensures r.outcome.Ok? ==> var ranking := GetProbabilities(t, d, draws).outcome.value;
      && (|ranking| == 0 ==> r.outcome.value == UNKNOWN_LANG)
      && (|ranking| > 0 ==> Some(r.outcome.value) == ranking[0].lang)
  {
    var p := GetProbabilities(t, d, draws);
    match p.outcome
    case Err(e) => Run(p.detector, Err(e))
    case Ok(ranking) =>
      if |ranking| == 0 then Run(p.detector, Ok(UNKNOWN_LANG))
      else
        assert ranking[0] in ranking;
        match ranking[0].lang
        case None => Run(p.detector, Ok(UNKNOWN_LANG))
        case Some(code) => Run(p.detector, Ok(code))
  }
}
