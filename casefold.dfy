/** Sorting with `key=str.casefold`: texts compared by their lower-cased forms. The
    texts being sorted here are ASCII by construction, where case folding is
    lower-casing. */
module CaseFold {
  import opened Strings
  import opened Sorting

  /** `a.casefold() < b.casefold()`. */
  predicate FoldedLt(a: string, b: string) {
    LexLt(LowerStr(a), LowerStr(b))
  }

  /** Two texts tie exactly when they agree up to case. */
  lemma FoldedTie(a: string, b: string)
    ensures Equiv(a, b, FoldedLt) <==> LowerStr(a) == LowerStr(b)
  {
    LexLtTotal(LowerStr(a), LowerStr(b));
    if LowerStr(a) == LowerStr(b) {
      LexLtIrreflexive(LowerStr(a));
    }
  }

  lemma FoldedLtOrder()
    ensures StrictWeakOrder(FoldedLt)
  {
    forall a ensures !FoldedLt(a, a) {
      LexLtIrreflexive(LowerStr(a));
    }
    forall a, b, c | FoldedLt(a, b) && FoldedLt(b, c) ensures FoldedLt(a, c) {
      LexLtTransitive(LowerStr(a), LowerStr(b), LowerStr(c));
    }
    forall a, b, c | Equiv(a, b, FoldedLt) && Equiv(b, c, FoldedLt) ensures Equiv(a, c, FoldedLt) {
      FoldedTie(a, b);
      FoldedTie(b, c);
      FoldedTie(a, c);
    }
  }

  /** In case-folded order, the folded first characters do not decrease. */
  lemma FoldedFirst(a: string, b: string)
    requires a != [] && b != [] && !FoldedLt(b, a)
    ensures Lower(a[0]) <= Lower(b[0])
  {
    LexNotLtFirst(LowerStr(a), LowerStr(b));
  }

  /** Upper-casing a character does not change its folded form. */
  lemma LowerUpper(c: char)
    ensures Lower(Upper(c)) == Lower(c)
  {
  }
}
