/** What a licence expression means, and how the classifier's reading relates to it.

    A well-formed expression is a chain of factors joined by operators; a factor
    is an atom or a parenthesised chain.  Every nesting and every unparenthesised
    mixture of AND and OR is such a chain.  Section D.4.5 of Annex D of SPDX 2.3
    lets AND bind tighter than OR (`Standard`); the classifier splits on AND
    first, so for it OR binds tighter (`Reversed`). */
module LicenceReading {
  import opened Common
  import opened Licence

  datatype Op = AndOp | OrOp | SlashOp
  datatype Factor = Lit(text: string) | Group(inner: Chain)
  datatype Chain = End(f: Factor) | Link(f: Factor, op: Op, rest: Chain)

  function OpToken(op: Op): Token {
    match op
    case AndOp => And
    case OrOp => Or
    case SlashOp => Slash
  }

  function PrintF(f: Factor): (ts: seq<Token>)
    ensures ts != [] && (ts[0].Atom? || ts[0] == LParen)
  {
    match f
    case Lit(text) => [Atom(text)]
    case Group(inner) => [LParen] + Print(inner) + [RParen]
  }

  function Print(c: Chain): (ts: seq<Token>)
    ensures ts != [] && (ts[0].Atom? || ts[0] == LParen)
  {
    match c
    case End(f) => PrintF(f)
    case Link(f, op, rest) => PrintF(f) + [OpToken(op)] + Print(rest)
  }

  // ---------------------------------------------------------------- readings

  /** AND binds tighter: `acc` is the value of the current conjunction so far. */
  predicate Standard(c: Chain, good: string -> bool, acc: bool := true) {
    match c
    case End(f) => acc && StandardF(f, good)
    case Link(f, op, rest) =>
      if op == AndOp then Standard(rest, good, acc && StandardF(f, good))
      else (acc && StandardF(f, good)) || Standard(rest, good)
  }

  predicate StandardF(f: Factor, good: string -> bool) {
    match f
    case Lit(text) => good(text)
    case Group(inner) => Standard(inner, good)
  }

  /** OR binds tighter: `acc` is the value of the current disjunction so far. */
  predicate Reversed(c: Chain, good: string -> bool, acc: bool := false) {
    match c
    case End(f) => acc || ReversedF(f, good)
    case Link(f, op, rest) =>
      if op == AndOp then (acc || ReversedF(f, good)) && Reversed(rest, good)
      else Reversed(rest, good, acc || ReversedF(f, good))
  }

  predicate ReversedF(f: Factor, good: string -> bool) {
    match f
    case Lit(text) => good(text)
    case Group(inner) => Reversed(inner, good)
  }

  function Cross(a: set<set<string>>, b: set<set<string>>): set<set<string>> {
    set x, y | x in a && y in b :: x + y
  }

  /** Every way of resolving the ORs, as the set of licences one must then follow. */
  function Resolutions(c: Chain, acc: set<set<string>> := {{}}): set<set<string>> {
    match c
    case End(f) => Cross(acc, ResolutionsF(f))
    case Link(f, op, rest) =>
      if op == AndOp then Resolutions(rest, Cross(acc, ResolutionsF(f)))
      else Cross(acc, ResolutionsF(f)) + Resolutions(rest)
  }

  function ResolutionsF(f: Factor): set<set<string>> {
    match f
    case Lit(text) => {{text}}
    case Group(inner) => Resolutions(inner)
  }

  predicate AllOf(r: set<string>, good: string -> bool) {
    forall a | a in r :: good(a)
  }

  /** Some resolution consists of good licences only. */
  predicate SomeGood(rs: set<set<string>>, good: string -> bool) {
    exists r | r in rs :: AllOf(r, good)
  }

  lemma EmptyIsGood(good: string -> bool)
    ensures SomeGood({{}}, good)
  {
    var none: set<string> := {};
    assert none in {none} && AllOf(none, good);
  }

  lemma CrossGood(a: set<set<string>>, b: set<set<string>>, good: string -> bool)
    ensures SomeGood(Cross(a, b), good) <==> SomeGood(a, good) && SomeGood(b, good)
  {
    if SomeGood(Cross(a, b), good) {
      var r :| r in Cross(a, b) && AllOf(r, good);
      var x, y :| x in a && y in b && r == x + y;
      assert x <= r && y <= r;
      assert AllOf(x, good) && AllOf(y, good);
    }
    if SomeGood(a, good) && SomeGood(b, good) {
      var x :| x in a && AllOf(x, good);
      var y :| y in b && AllOf(y, good);
      assert x + y in Cross(a, b) && AllOf(x + y, good);
    }
  }

  /** The standard reading holds exactly when some resolution uses only good licences. */
  lemma {:induction false} StandardIsChoice(c: Chain, acc: set<set<string>>, good: string -> bool)
    ensures SomeGood(Resolutions(c, acc), good) <==> Standard(c, good, SomeGood(acc, good))
  {
    ChoiceF(c.f, good);
    CrossGood(acc, ResolutionsF(c.f), good);
    if c.Link? {
      if c.op == AndOp {
        StandardIsChoice(c.rest, Cross(acc, ResolutionsF(c.f)), good);
      } else {
        StandardIsChoice(c.rest, {{}}, good);
        EmptyIsGood(good);
      }
    }
  }

  lemma {:induction false} ChoiceF(f: Factor, good: string -> bool)
    ensures SomeGood(ResolutionsF(f), good) <==> StandardF(f, good)
  {
    match f
    case Lit(text) =>
      assert {text} in ResolutionsF(f);
    case Group(inner) =>
      StandardIsChoice(inner, {{}}, good);
      EmptyIsGood(good);
  }

  // ---------------------------------------------------------------- the two readings compared

  /** The classifier's reading is never more permissive than the standard one. */
  lemma {:induction false} ReversedImpliesStandard(c: Chain, good: string -> bool)
    requires Reversed(c, good)
    ensures Standard(c, good)
  {
    if c.f.Group? && Reversed(c.f.inner, good) {
      ReversedImpliesStandard(c.f.inner, good);
    }
    if c.Link? && Reversed(c.rest, good) {
      ReversedImpliesStandard(c.rest, good);
    }
  }

  /** All operators of this level are AND, or none is. */
  predicate OneLevel(c: Chain, conj: bool) {
    c.Link? ==> (c.op == AndOp) == conj && OneLevel(c.rest, conj)
  }

  /** No level mixes AND with OR: every compound operand is parenthesised. */
  predicate Unmixed(c: Chain) {
    && (OneLevel(c, true) || OneLevel(c, false))
    && UnmixedF(c.f)
    && (c.Link? ==> Unmixed(c.rest))
  }

  predicate UnmixedF(f: Factor) {
    f.Group? ==> Unmixed(f.inner)
  }

  lemma {:induction false} UnmixedAgreeF(f: Factor, good: string -> bool)
    requires UnmixedF(f)
    ensures StandardF(f, good) == ReversedF(f, good)
  {
    if f.Group? {
      if OneLevel(f.inner, true) {
        UnmixedAnd(f.inner, good, true);
      } else {
        UnmixedOr(f.inner, good, false);
      }
    }
  }

  lemma {:induction false} UnmixedAnd(c: Chain, good: string -> bool, acc: bool)
    requires Unmixed(c) && OneLevel(c, true)
    ensures Standard(c, good, acc) == (acc && Reversed(c, good))
  {
    UnmixedAgreeF(c.f, good);
    if c.Link? {
      UnmixedAnd(c.rest, good, acc && StandardF(c.f, good));
    }
  }

  lemma {:induction false} UnmixedOr(c: Chain, good: string -> bool, acc: bool)
    requires Unmixed(c) && OneLevel(c, false)
    ensures Reversed(c, good, acc) == (acc || Standard(c, good))
  {
    UnmixedAgreeF(c.f, good);
    if c.Link? {
      UnmixedOr(c.rest, good, acc || ReversedF(c.f, good));
    }
  }

  lemma UnmixedAgree(c: Chain, good: string -> bool)
    requires Unmixed(c)
    ensures Standard(c, good) == Reversed(c, good)
  {
    UnmixedAgreeF(Group(c), good);
  }

  // ---------------------------------------------------------------- mixed levels disagree

  function Atoms(c: Chain): set<string> {
    AtomsF(c.f) + if c.Link? then Atoms(c.rest) else {}
  }

  function AtomsF(f: Factor): set<string> {
    match f
    case Lit(text) => {text}
    case Group(inner) => Atoms(inner)
  }

  /** No licence occurs twice. */
  predicate Distinct(c: Chain) {
    && (c.f.Group? ==> Distinct(c.f.inner))
    && (c.Link? ==> Distinct(c.rest) && AtomsF(c.f) !! Atoms(c.rest))
  }

  function In(g: set<string>): string -> bool {
    t => t in g
  }

  lemma {:induction false} Local(c: Chain, g: set<string>, h: set<string>, acc: bool)
    requires g * Atoms(c) == h * Atoms(c)
    ensures Standard(c, In(g), acc) == Standard(c, In(h), acc)
    ensures Reversed(c, In(g), acc) == Reversed(c, In(h), acc)
    decreases c
  {
    assert AtomsF(c.f) <= Atoms(c);
    assert g * AtomsF(c.f) == (g * Atoms(c)) * AtomsF(c.f) == h * AtomsF(c.f);
    match c.f {
      case Lit(t) => assert t in g * AtomsF(c.f) <==> t in h * AtomsF(c.f);
      case Group(inner) => Local(inner, g, h, true); Local(inner, g, h, false);
    }
    if c.Link? {
      assert g * Atoms(c.rest) == (g * Atoms(c)) * Atoms(c.rest) == h * Atoms(c.rest);
      Local(c.rest, g, h, true);
      Local(c.rest, g, h, false);
    }
  }

  lemma {:induction false} AllGood(c: Chain, g: set<string>, acc: bool)
    requires Atoms(c) <= g
    ensures Standard(c, In(g)) && Reversed(c, In(g), acc)
  {
    if c.f.Group? { AllGood(c.f.inner, g, false); }
    if c.Link? { AllGood(c.rest, g, true); AllGood(c.rest, g, false); }
  }

  lemma {:induction false} NoneGood(c: Chain, g: set<string>, acc: bool)
    requires Atoms(c) !! g
    ensures !Standard(c, In(g), acc) && !Reversed(c, In(g))
    ensures c.Link? && OneLevel(c, true) ==> !Reversed(c, In(g), acc)
  {
    if c.f.Group? { NoneGood(c.f.inner, g, true); }
    if c.Link? { NoneGood(c.rest, g, acc); NoneGood(c.rest, g, false); NoneGood(c.rest, g, true); }
  }

  /** A level that mixes AND with OR can be told apart from the standard reading. */
  lemma {:induction false} MixedDisagree(c: Chain) returns (g: set<string>)
    requires Distinct(c) && !Unmixed(c)
    ensures g <= Atoms(c) && Standard(c, In(g)) && !Reversed(c, In(g))
  {
    if c.Link? && !Unmixed(c.rest) {
      var h := MixedDisagree(c.rest);
      g := if c.op == AndOp then h + AtomsF(c.f) else h;
      assert g * Atoms(c.rest) == h * Atoms(c.rest);
      Local(c.rest, g, h, true);
      Local(c.rest, g, h, false);
      if c.op == AndOp { AllGood(End(c.f), g, false); } else { NoneGood(End(c.f), g, true); }
    } else if c.f.Group? && !Unmixed(c.f.inner) {
      var h := MixedDisagree(c.f.inner);
      g := if c.Link? && c.op == AndOp then h + Atoms(c.rest) else h;
      assert g * Atoms(c.f.inner) == h * Atoms(c.f.inner);
      Local(c.f.inner, g, h, true);
      Local(c.f.inner, g, h, false);
      assert !ReversedF(c.f, In(g)) && StandardF(c.f, In(g));
      if c.Link? {
        if c.op == AndOp { AllGood(c.rest, g, false); } else { NoneGood(c.rest, g, true); }
      }
    } else if c.op == AndOp {
      g := Atoms(c.rest.rest);
      AllGood(c.rest.rest, g, false);
      NoneGood(End(c.f), g, true);
    } else {
      g := AtomsF(c.f);
      AllGood(End(c.f), g, false);
      NoneGood(c.rest, g, true);
      assert c.rest.End? ==> OneLevel(c.rest, false);
    }
  }
}
