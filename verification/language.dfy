/** A detection result: a language code, or none, with its probability. */
module Languages {
  import opened Basics

  /** Probabilities are exact reals here, so there is no NaN and no
      negative zero. */
  datatype Language = Language(lang: Option<string>, prob: real)

  datatype Ordering = Less | Equal | Greater

  function NewLanguage(lang: Option<string>, prob: real): (l: Language)
    ensures l.lang == lang && l.prob == prob
  {
    Language(lang, prob)
  }

  /** Results are ordered by probability alone; the language code plays no
      part.  Over reals every pair is comparable. */
  function PartialCmp(a: Language, b: Language): (r: Option<Ordering>)
    ensures r.Some?
    ensures r == Some(Less) <==> a.prob < b.prob
    ensures r == Some(Greater) <==> a.prob > b.prob
    ensures r == Some(Equal) <==> a.prob == b.prob
  {
    if a.prob < b.prob then Some(Less)
    else if a.prob > b.prob then Some(Greater)
    else Some(Equal)
  }

  /** The `<` and `>` operators derived from `PartialCmp`. */
  predicate Lt(a: Language, b: Language)
  {
    PartialCmp(a, b) == Some(Less)
  }

  predicate Gt(a: Language, b: Language)
  {
    PartialCmp(a, b) == Some(Greater)
  }

  /** Swapping the operands reverses the order. */
  lemma CmpAntisymmetric(a: Language, b: Language)
    ensures Lt(a, b) <==> Gt(b, a)
    ensures PartialCmp(a, b) == Some(Equal) <==> PartialCmp(b, a) == Some(Equal)
  {
  }

  lemma LtTransitive(a: Language, b: Language, c: Language)
    requires Lt(a, b) && Lt(b, c)
    ensures Lt(a, c)
  {
  }

  /** Equality compares code and probability, ordering only probability:
      two results can be neither smaller nor greater yet still differ. */
  lemma OrderIgnoresLanguage(a: Language, b: Language)
    requires a.prob == b.prob && a.lang != b.lang
    ensures !Lt(a, b) && !Gt(a, b) && a != b
  {
  }

  /** Equal results always compare as equal. */
  lemma EqualImpliesCmpEqual(a: Language, b: Language)
    requires a == b
    ensures PartialCmp(a, b) == Some(Equal)
  {
  }

  /** The ordering cases of the language tests. */
  lemma CmpExample()
    ensures var l1 := NewLanguage(Some("a"), 0.1);
      var l2 := NewLanguage(Some("b"), 0.5);
      Lt(l1, l2) && l1 != l2 && !Gt(l1, l1)
  {
  }

  /** `lang:prob` with the probability rendered by `oneDecimal`, the
      one-decimal float formatting; a result without a code renders as
      nothing at all. */
  function Display(l: Language, oneDecimal: real -> string): (r: string)
    ensures r == [] <==> l.lang.None?
    ensures l.lang.Some? ==> |r| > |l.lang.value| && r[..|l.lang.value|] == l.lang.value
    ensures l.lang.Some? ==> r[|l.lang.value|] == ':' && r[|l.lang.value| + 1..] == oneDecimal(l.prob)
  {
    match l.lang
    case None => ""
    case Some(code) => code + ":" + oneDecimal(l.prob)
  }
}
