/** The character normaliser and the n-gram window: `normalize`, the CJK
    class table, Vietnamese composition, and the `grams`/`capitalword`
    state machine.  The Unicode block lookup, the upper-case test and the
    character tables read from `messages.properties` are parameters. */
module NGrams {
  import opened Basics
  import Messages

  const N_GRAM: nat := 3

  /** The Unicode blocks `normalize` treats specially; every other block is
      `OtherBlock`.  A char with no known block is `None`. */
  datatype Block =
    | BasicLatin
    | Latin1Supplement
    | LatinExtendedB
    | GeneralPunctuation
    | Arabic
    | LatinExtendedAdditional
    | Hiragana
    | Katakana
    | Bopomofo
    | BopomofoExtended
    | CjkUnifiedIdeographs
    | HangulSyllables
    | OtherBlock(id: nat)

  /** What normalisation consults: the block of a char, the upper-case
      property, the Latin-1 exclusion list and the ideograph classes. */
  datatype CharTables = CharTables(
    blockOf: char -> Option<Block>,
    isUpper: char -> bool,
    latin1Excluded: string,
    cjkClasses: seq<string>)

  /** The Vietnamese composition tables: base vowels, the five combining
      marks (grave, acute, tilde, hook above, dot below), and for each mark
      the precomposed char of each base, position by position. */
  datatype VietTables = VietTables(
    bases: string,
    dmarks: string,
    norm0300: string,
    norm0301: string,
    norm0303: string,
    norm0309: string,
    norm0323: string)

  /** Keys of the ideograph classes, in the order the table is built. */
  const CJK_CLASS_KEYS: seq<string> := [
      "NGram.KANJI_1_0", "NGram.KANJI_1_2", "NGram.KANJI_1_4", "NGram.KANJI_1_8",
      "NGram.KANJI_1_11", "NGram.KANJI_1_12", "NGram.KANJI_1_13", "NGram.KANJI_1_14",
      "NGram.KANJI_1_16", "NGram.KANJI_1_18", "NGram.KANJI_1_22", "NGram.KANJI_1_27",
      "NGram.KANJI_1_29", "NGram.KANJI_1_31", "NGram.KANJI_1_35", "NGram.KANJI_2_0",
      "NGram.KANJI_2_1", "NGram.KANJI_2_4", "NGram.KANJI_2_9", "NGram.KANJI_2_10",
      "NGram.KANJI_2_11", "NGram.KANJI_2_12", "NGram.KANJI_2_13", "NGram.KANJI_2_15",
      "NGram.KANJI_2_16", "NGram.KANJI_2_18", "NGram.KANJI_2_21", "NGram.KANJI_2_22",
      "NGram.KANJI_2_23", "NGram.KANJI_2_28", "NGram.KANJI_2_29", "NGram.KANJI_2_30",
      "NGram.KANJI_2_31", "NGram.KANJI_2_32", "NGram.KANJI_2_35", "NGram.KANJI_2_36",
      "NGram.KANJI_2_37", "NGram.KANJI_2_38", "NGram.KANJI_3_1", "NGram.KANJI_3_2",
      "NGram.KANJI_3_3", "NGram.KANJI_3_4", "NGram.KANJI_3_5", "NGram.KANJI_3_8",
      "NGram.KANJI_3_9", "NGram.KANJI_3_11", "NGram.KANJI_3_12", "NGram.KANJI_3_13",
      "NGram.KANJI_3_15", "NGram.KANJI_3_16", "NGram.KANJI_3_18", "NGram.KANJI_3_19",
      "NGram.KANJI_3_22", "NGram.KANJI_3_23", "NGram.KANJI_3_27", "NGram.KANJI_3_29",
      "NGram.KANJI_3_30", "NGram.KANJI_3_31", "NGram.KANJI_3_32", "NGram.KANJI_3_35",
      "NGram.KANJI_3_36", "NGram.KANJI_3_37", "NGram.KANJI_3_38", "NGram.KANJI_4_0",
      "NGram.KANJI_4_9", "NGram.KANJI_4_10", "NGram.KANJI_4_16", "NGram.KANJI_4_17",
      "NGram.KANJI_4_18", "NGram.KANJI_4_22", "NGram.KANJI_4_24", "NGram.KANJI_4_28",
      "NGram.KANJI_4_34", "NGram.KANJI_4_39", "NGram.KANJI_5_10", "NGram.KANJI_5_11",
      "NGram.KANJI_5_12", "NGram.KANJI_5_13", "NGram.KANJI_5_14", "NGram.KANJI_5_18",
      "NGram.KANJI_5_26", "NGram.KANJI_5_29", "NGram.KANJI_5_34", "NGram.KANJI_5_39",
      "NGram.KANJI_6_0", "NGram.KANJI_6_3", "NGram.KANJI_6_9", "NGram.KANJI_6_10",
      "NGram.KANJI_6_11", "NGram.KANJI_6_12", "NGram.KANJI_6_16", "NGram.KANJI_6_18",
      "NGram.KANJI_6_20", "NGram.KANJI_6_21", "NGram.KANJI_6_22", "NGram.KANJI_6_23",
      "NGram.KANJI_6_25", "NGram.KANJI_6_28", "NGram.KANJI_6_29", "NGram.KANJI_6_30",
      "NGram.KANJI_6_32", "NGram.KANJI_6_34", "NGram.KANJI_6_35", "NGram.KANJI_6_37",
      "NGram.KANJI_6_39", "NGram.KANJI_7_0", "NGram.KANJI_7_3", "NGram.KANJI_7_6",
      "NGram.KANJI_7_7", "NGram.KANJI_7_9", "NGram.KANJI_7_11", "NGram.KANJI_7_12",
      "NGram.KANJI_7_13", "NGram.KANJI_7_16", "NGram.KANJI_7_18", "NGram.KANJI_7_19",
      "NGram.KANJI_7_20", "NGram.KANJI_7_21", "NGram.KANJI_7_23", "NGram.KANJI_7_25",
      "NGram.KANJI_7_28", "NGram.KANJI_7_29", "NGram.KANJI_7_32", "NGram.KANJI_7_33",
      "NGram.KANJI_7_35", "NGram.KANJI_7_37"
  ]

  function CharTablesFrom(messages: map<string, string>, blockOf: char -> Option<Block>,
                          isUpper: char -> bool): (t: CharTables)
    ensures |t.cjkClasses| == |CJK_CLASS_KEYS|
    ensures forall i :: 0 <= i < |CJK_CLASS_KEYS| ==>
              t.cjkClasses[i] == Messages.GetString(messages, CJK_CLASS_KEYS[i])
  {
    CharTables(blockOf, isUpper, Messages.GetString(messages, "NGram.LATIN1_EXCLUDE"),
               seq(|CJK_CLASS_KEYS|, i requires 0 <= i < |CJK_CLASS_KEYS| =>
                     Messages.GetString(messages, CJK_CLASS_KEYS[i])))
  }

  /** The Vietnamese tables, each read from the messages under its key. */
  function VietTablesFrom(messages: map<string, string>): (v: VietTables)
    ensures v.bases == Messages.GetString(messages, "TO_NORMALIZE_VI_CHARS")
    ensures v.dmarks == Messages.GetString(messages, "DMARK_CLASS")
    ensures [v.norm0300, v.norm0301, v.norm0303, v.norm0309, v.norm0323]
         == [Messages.GetString(messages, "NORMALIZED_VI_CHARS_0300"),
             Messages.GetString(messages, "NORMALIZED_VI_CHARS_0301"),
             Messages.GetString(messages, "NORMALIZED_VI_CHARS_0303"),
             Messages.GetString(messages, "NORMALIZED_VI_CHARS_0309"),
             Messages.GetString(messages, "NORMALIZED_VI_CHARS_0323")]
  {
    VietTables(
      Messages.GetString(messages, "TO_NORMALIZE_VI_CHARS"),
      Messages.GetString(messages, "DMARK_CLASS"),
      Messages.GetString(messages, "NORMALIZED_VI_CHARS_0300"),
      Messages.GetString(messages, "NORMALIZED_VI_CHARS_0301"),
      Messages.GetString(messages, "NORMALIZED_VI_CHARS_0303"),
      Messages.GetString(messages, "NORMALIZED_VI_CHARS_0309"),
      Messages.GetString(messages, "NORMALIZED_VI_CHARS_0323"))
  }

  /* ---------------------------------------------------------------------
     The ideograph class table
     --------------------------------------------------------------------- */

  /** One class: every member, the first included, maps to the first. */
  function ClassMap(cls: string): (m: map<char, char>)
    ensures m.Keys == set c | c in cls
    ensures forall c :: c in m ==> m[c] == cls[0]
  {
    if |cls| == 0 then map[] else map c | c in cls :: cls[0]
  }

  /** The CJK table: classes are inserted in order, so a later class that
      lists a char overrides an earlier one. */
  function CjkMap(classes: seq<string>): (m: map<char, char>)
    ensures forall c :: c in m ==> exists j :: 0 <= j < |classes| && c in classes[j] && m[c] == classes[j][0]
  {
    if |classes| == 0 then map[]
    else CjkMap(classes[..|classes| - 1]) + ClassMap(classes[|classes| - 1])
  }

  /** A char is in the table exactly when some class lists it. */
  lemma {:induction false} CjkMapDomain(classes: seq<string>, c: char)
    ensures c in CjkMap(classes) <==> exists j :: 0 <= j < |classes| && c in classes[j]
    decreases |classes|
  {
    if |classes| > 0 {
      var init := classes[..|classes| - 1];
      CjkMapDomain(init, c);
      if c in CjkMap(init) {
        var j :| 0 <= j < |init| && c in init[j];
        assert classes[j] == init[j];
      }
      if exists j :: 0 <= j < |classes| && c in classes[j] {
        var j :| 0 <= j < |classes| && c in classes[j];
        if j < |classes| - 1 {
          assert init[j] == classes[j];
        }
      }
    }
  }

  /** A listed char maps to the first member of the LAST class listing it. */
  lemma {:induction false} CjkMapLastClass(classes: seq<string>, c: char, j: nat)
    requires j < |classes| && c in classes[j]
    requires forall k :: j < k < |classes| ==> c !in classes[k]
    ensures c in CjkMap(classes) && CjkMap(classes)[c] == classes[j][0]
    decreases |classes|
  {
    var init := classes[..|classes| - 1];
    if j < |classes| - 1 {
      assert init[j] == classes[j];
      CjkMapLastClass(init, c, j);
    }
  }

  /* ---------------------------------------------------------------------
     normalize
     --------------------------------------------------------------------- */

  predicate IsAsciiLetter(c: char)
  {
    ('A' <= c <= 'Z') || ('a' <= c <= 'z')
  }

  /** Blocks `normalize` leaves alone; an unknown block is one of them. */
  predicate PassesThrough(b: Option<Block>)
  {
    b.None? || b.value.OtherBlock?
  }

  /** Maps a char to its representative, dispatching on its block. */
  function Normalize(t: CharTables, ch: char): (r: char)
    ensures t.blockOf(ch) == Some(BasicLatin) ==> r == (if IsAsciiLetter(ch) then ch else ' ')
    ensures t.blockOf(ch) == Some(Latin1Supplement) ==> r == (if ch in t.latin1Excluded then ' ' else ch)
    ensures t.blockOf(ch) == Some(LatinExtendedB) ==>
              r == (if ch == '\U{0219}' then '\U{015F}' else if ch == '\U{021B}' then '\U{0163}' else ch)
    ensures t.blockOf(ch) == Some(GeneralPunctuation) ==> r == ' '
    ensures t.blockOf(ch) == Some(Arabic) ==> r == (if ch == '\U{06CC}' then '\U{064A}' else ch)
    ensures t.blockOf(ch) == Some(LatinExtendedAdditional) ==> r == (if ch >= '\U{1EA0}' then '\U{1EC3}' else ch)
    ensures t.blockOf(ch) == Some(Hiragana) ==> r == '\U{3042}'
    ensures t.blockOf(ch) == Some(Katakana) ==> r == '\U{30A2}'
    ensures t.blockOf(ch) in {Some(Bopomofo), Some(BopomofoExtended)} ==> r == '\U{3105}'
    ensures t.blockOf(ch) == Some(HangulSyllables) ==> r == '\U{AC00}'
    ensures PassesThrough(t.blockOf(ch)) ==> r == ch
  {
    match t.blockOf(ch)
    case Some(BasicLatin) =>
      if ch < 'A' || ('Z' < ch && ch < 'a') || ch > 'z' then ' ' else ch
    case Some(Latin1Supplement) =>
      if ch in t.latin1Excluded then ' ' else ch
    case Some(LatinExtendedB) =>
      if ch == '\U{0219}' then '\U{015F}'
      else if ch == '\U{021B}' then '\U{0163}'
      else ch
    case Some(GeneralPunctuation) => ' '
    case Some(Arabic) =>
      if ch == '\U{06CC}' then '\U{064A}' else ch
    case Some(LatinExtendedAdditional) =>
      if ch >= '\U{1EA0}' then '\U{1EC3}' else ch
    case Some(Hiragana) => '\U{3042}'
    case Some(Katakana) => '\U{30A2}'
    case Some(Bopomofo) => '\U{3105}'
    case Some(BopomofoExtended) => '\U{3105}'
    case Some(CjkUnifiedIdeographs) =>
      var m := CjkMap(t.cjkClasses);
      if ch in m then m[ch] else ch
    case Some(HangulSyllables) => '\U{AC00}'
    case Some(OtherBlock(_)) => ch
    case None => ch
  }

  /** The block lookup puts every representative `normalize` produces in
      its real Unicode block (true of the actual block table). */
  predicate RepresentativesInPlace(t: CharTables)
  {
    && t.blockOf(' ') == Some(BasicLatin)
    && PassesThrough(t.blockOf('\U{015F}'))
    && PassesThrough(t.blockOf('\U{0163}'))
    && t.blockOf('\U{064A}') == Some(Arabic)
    && t.blockOf('\U{1EC3}') == Some(LatinExtendedAdditional)
    && t.blockOf('\U{3042}') == Some(Hiragana)
    && t.blockOf('\U{30A2}') == Some(Katakana)
    && t.blockOf('\U{3105}') == Some(Bopomofo)
    && t.blockOf('\U{AC00}') == Some(HangulSyllables)
  }

  /** Outside the ideograph block, normalising twice is normalising once. */
  lemma NormalizeIdempotent(t: CharTables, ch: char)
    requires RepresentativesInPlace(t)
    requires t.blockOf(ch) != Some(CjkUnifiedIdeographs)
    ensures Normalize(t, Normalize(t, ch)) == Normalize(t, ch)
  {
  }

  /** An ideograph normalises to the first member of the last class that
      lists it, and to itself when no class does. */
  lemma NormalizeIdeograph(t: CharTables, ch: char)
    requires t.blockOf(ch) == Some(CjkUnifiedIdeographs)
    ensures (forall j :: 0 <= j < |t.cjkClasses| ==> ch !in t.cjkClasses[j]) ==> Normalize(t, ch) == ch
    ensures forall j :: 0 <= j < |t.cjkClasses| && ch in t.cjkClasses[j]
                        && (forall k :: j < k < |t.cjkClasses| ==> ch !in t.cjkClasses[k])
                        ==> Normalize(t, ch) == t.cjkClasses[j][0]
  {
    CjkMapDomain(t.cjkClasses, ch);
    forall j | 0 <= j < |t.cjkClasses| && ch in t.cjkClasses[j]
               && (forall k :: j < k < |t.cjkClasses| ==> ch !in t.cjkClasses[k])
      ensures Normalize(t, ch) == t.cjkClasses[j][0]
    {
      CjkMapLastClass(t.cjkClasses, ch, j);
    }
  }

  /** Two ideographs whose last listing class is the same normalise equal. */
  lemma ClassMatesNormalizeEqual(t: CharTables, a: char, b: char, j: nat)
    requires t.blockOf(a) == Some(CjkUnifiedIdeographs) && t.blockOf(b) == Some(CjkUnifiedIdeographs)
    requires j < |t.cjkClasses| && a in t.cjkClasses[j] && b in t.cjkClasses[j]
    requires forall k :: j < k < |t.cjkClasses| ==> a !in t.cjkClasses[k] && b !in t.cjkClasses[k]
    ensures Normalize(t, a) == Normalize(t, b)
  {
    NormalizeIdeograph(t, a);
    NormalizeIdeograph(t, b);
  }

  /* ---------------------------------------------------------------------
     The n-gram window
     --------------------------------------------------------------------- */

  /** The last (at most three) normalised chars, and whether they end a run
      of upper-case chars. */
  datatype NGram = NGram(grams: string, capitalword: bool)

  function NewNGram(): (g: NGram)
    ensures g.grams == " " && !g.capitalword
  {
    NGram(" ", false)
  }

  /** The last char of the buffer, a space when it is empty. */
  function LastOr(s: string): char
  {
    if |s| == 0 then ' ' else s[|s| - 1]
  }

  /** The last `n` chars of `s` (all of `s` when it is shorter). */
  function LastN(s: string, n: nat): (r: string)
    ensures |r| == Min(n, |s|) && r == s[|s| - |r|..]
  {
    s[|s| - Min(n, |s|)..]
  }

  /** At a word boundary the last buffered char is the space sentinel. */
  predicate AtBoundary(g: NGram)
  {
    LastOr(g.grams) == ' '
  }

  /** Buffers reachable from `NewNGram`: one to three chars, and a buffer
      shorter than three still starts with the sentinel. */
  predicate Valid(g: NGram)
  {
    1 <= |g.grams| <= N_GRAM && (|g.grams| < N_GRAM ==> g.grams[0] == ' ')
  }

  /** Feeds one char.  At a boundary the buffer is reset to the sentinel and
      the flag cleared, and a char normalising to space stops there.
      Otherwise the oldest char is dropped once three are held.  The flag is
      set by an upper-case char after an upper-case char, cleared by any
      other char, and left as it is by an upper-case char after a
      non-upper-case one. */
  function AddChar(t: CharTables, g: NGram, ch: char): (r: NGram)
    ensures Valid(g) ==> Valid(r)
    ensures var c := Normalize(t, ch);
      AtBoundary(g) && c == ' ' ==> r == NGram(" ", false)
    ensures var c := Normalize(t, ch);
      AtBoundary(g) && c != ' ' ==> r.grams == [' ', c]
    ensures var c := Normalize(t, ch);
      Valid(g) && !AtBoundary(g) ==> r.grams == LastN(g.grams + [c], N_GRAM)
    ensures var c := Normalize(t, ch);
      !(AtBoundary(g) && c == ' ') ==> LastOr(r.grams) == c
    ensures var c := Normalize(t, ch);
      !(AtBoundary(g) && c == ' ') && t.isUpper(c) && t.isUpper(LastOr(g.grams)) ==> r.capitalword
    ensures var c := Normalize(t, ch);
      !t.isUpper(c) ==> !r.capitalword
    ensures var c := Normalize(t, ch);
      t.isUpper(c) && !t.isUpper(LastOr(g.grams)) ==>
        r.capitalword == (!AtBoundary(g) && g.capitalword)
  {
    var c := Normalize(t, ch);
    var last := LastOr(g.grams);
    if last == ' ' && c == ' ' then
      NGram(" ", false)
    else
      var kept := if last == ' ' then " " else if |g.grams| >= N_GRAM then g.grams[1..] else g.grams;
      var flag := if last == ' ' then false else g.capitalword;
      NGram(kept + [c], if t.isUpper(c) then (if t.isUpper(last) then true else flag) else false)
  }

  /** The flag is only ever set while the last buffered char is upper-case. */
  lemma CapitalwordMeansUpperLast(t: CharTables, g: NGram, ch: char)
    requires g.capitalword ==> t.isUpper(LastOr(g.grams))
    ensures var r := AddChar(t, g, ch);
      r.capitalword ==> t.isUpper(LastOr(r.grams))
  {
  }

  /** The gram of length `n` ending at the last buffered char, if any. */
  function Get(g: NGram, n: nat): (r: Option<string>)
    ensures r.Some? <==> && !g.capitalword && 1 <= n <= N_GRAM && n <= |g.grams|
                         && !(n == 1 && LastOr(g.grams) == ' ')
    ensures r.Some? ==> r.value == LastN(g.grams, n) && |r.value| == n
  {
    if g.capitalword then None
    else if n < 1 || n > N_GRAM || |g.grams| < n then None
    else if n == 1 then
      var ch := g.grams[|g.grams| - 1];
      if ch == ' ' then None else Some([ch])
    else
      Some(g.grams[|g.grams| - n..])
  }

  /** The window after each char of `s`, starting from `g`: state `i` is
      state `i - 1` (or `g`) with char `i` added. */
  function States(t: CharTables, g: NGram, s: string): (r: seq<NGram>)
    ensures |r| == |s|
    ensures |s| > 0 ==> r[0] == AddChar(t, g, s[0])
    ensures forall i :: 0 < i < |s| ==> r[i] == AddChar(t, r[i - 1], s[i])
    decreases |s|
  {
    if |s| == 0 then []
    else
      var g' := AddChar(t, g, s[0]);
      var rest := States(t, g', s[1..]);
      assert forall i :: 1 < i < |s| ==> rest[i - 1] == AddChar(t, rest[i - 2], s[i]) by {
        assert forall i :: 1 < i < |s| ==> s[1..][i - 1] == s[i];
      }
      [g'] + rest
  }

  /** The fresh window yields no gram at all. */
  lemma NewNGramYieldsNothing(n: nat)
    ensures Get(NewNGram(), n).None?
  {
  }

  /** After a boundary, a char that does not normalise to space starts a
      word: its 1-gram is the char, its 2-gram the sentinel and the char,
      and there is no 3-gram yet. */
  lemma WordStart(t: CharTables, g: NGram, ch: char)
    requires AtBoundary(g) && Normalize(t, ch) != ' ' && !t.isUpper(' ')
    ensures var r := AddChar(t, g, ch); var c := Normalize(t, ch);
      && Get(r, 1) == Some([c])
      && Get(r, 2) == Some([' ', c])
      && Get(r, 3) == None
  {
  }

  /** The trace of the window fed `A`, `1`, `B` with ASCII blocks. */
  lemma AsciiTrace(t: CharTables)
    requires t.blockOf('A') == Some(BasicLatin) && t.blockOf('1') == Some(BasicLatin)
    requires t.blockOf('B') == Some(BasicLatin)
    requires t.isUpper('A') && t.isUpper('B') && !t.isUpper(' ')
    ensures AddChar(t, NewNGram(), 'A') == NGram(" A", false)
    ensures AddChar(t, NGram(" A", false), '1') == NGram(" A ", false)
    ensures AddChar(t, NGram(" A ", false), 'B') == NGram(" B", false)
  {
    LetterAfterBoundary(t, NewNGram(), 'A');
    SeparatorInWord(t, NGram(" A", false), '1');
    LetterAfterBoundary(t, NGram(" A ", false), 'B');
  }

  /** The grams of the three windows of `AsciiTrace`. */
  lemma AsciiTraceGrams()
    ensures var g := NGram(" A", false);
      Get(g, 1) == Some("A") && Get(g, 2) == Some(" A") && Get(g, 3) == None
    ensures var g := NGram(" A ", false);
      Get(g, 1) == None && Get(g, 2) == Some("A ") && Get(g, 3) == Some(" A ")
    ensures var g := NGram(" B", false);
      Get(g, 1) == Some("B") && Get(g, 2) == Some(" B") && Get(g, 3) == None
  {
  }

  lemma SeparatorInWord(t: CharTables, g: NGram, c: char)
    requires t.blockOf(c) == Some(BasicLatin) && !IsAsciiLetter(c) && !t.isUpper(' ')
    requires LastOr(g.grams) != ' ' && |g.grams| < N_GRAM
    ensures AddChar(t, g, c) == NGram(g.grams + " ", false)
  {
    assert Normalize(t, c) == ' ';
  }

  lemma LetterAfterBoundary(t: CharTables, g: NGram, c: char)
    requires t.blockOf(c) == Some(BasicLatin) && 'A' <= c <= 'Z' && t.isUpper(c) && !t.isUpper(' ')
    requires LastOr(g.grams) == ' '
    ensures AddChar(t, g, c) == NGram([' ', c], false)
  {
    assert Normalize(t, c) == c;
  }

  /* ---------------------------------------------------------------------
     Vietnamese composition
     --------------------------------------------------------------------- */

  /** The precomposed chars for mark number `di`. */
  function VietTable(v: VietTables, di: nat): string
    requires di < 5
  {
    match di
    case 0 => v.norm0300
    case 1 => v.norm0301
    case 2 => v.norm0303
    case 3 => v.norm0309
    case 4 => v.norm0323
  }

  /** The precomposed char for a base followed by a mark, when the tables
      have one: both are looked up by first position, and a table too short
      for the base's position has none. */
  function Compose(v: VietTables, c: char, next: char): Option<char>
  {
    match (IndexOf(v.bases, c), IndexOf(v.dmarks, next))
    case (Some(bi), Some(di)) =>
      if di < 5 && bi < |VietTable(v, di)| then Some(VietTable(v, di)[bi]) else None
    case _ => None
  }

  /** One left-to-right pass replacing each composable base-mark pair by its
      precomposed char; both chars of a pair are consumed. */
  function NormalizeVi(v: VietTables, s: string): (r: string)
    ensures |r| <= |s|
    decreases |s|
  {
    if |s| == 0 then []
    else if |s| >= 2 && Compose(v, s[0], s[1]).Some? then
      [Compose(v, s[0], s[1]).value] + NormalizeVi(v, s[2..])
    else [s[0]] + NormalizeVi(v, s[1..])
  }

  /** Every table entry is reachable: base `bi` followed by mark `di`
      becomes entry `bi` of table `di`. */
  lemma ComposesPair(v: VietTables, bi: nat, di: nat)
    requires bi < |v.bases| && IndexOf(v.bases, v.bases[bi]) == Some(bi)
    requires di < 5 && di < |v.dmarks| && IndexOf(v.dmarks, v.dmarks[di]) == Some(di)
    requires bi < |VietTable(v, di)|
    ensures NormalizeVi(v, [v.bases[bi], v.dmarks[di]]) == [VietTable(v, di)[bi]]
  {
    var s := [v.bases[bi], v.dmarks[di]];
    assert s[2..] == [];
  }

  /** Text in which no base char is followed by a mark is left as it is. */
  lemma {:induction false} NoPairUnchanged(v: VietTables, s: string)
    requires forall i :: 0 <= i < |s| - 1 ==> !(s[i] in v.bases && s[i + 1] in v.dmarks)
    ensures NormalizeVi(v, s) == s
    decreases |s|
  {
    if |s| > 0 {
      if |s| >= 2 {
        assert !(s[0] in v.bases && s[1] in v.dmarks);
      }
      forall i | 0 <= i < |s[1..]| - 1
        ensures !(s[1..][i] in v.bases && s[1..][i + 1] in v.dmarks)
      {
        assert s[1..][i] == s[i + 1] && s[1..][i + 1] == s[i + 2];
      }
      NoPairUnchanged(v, s[1..]);
    }
  }
}
