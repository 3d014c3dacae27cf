/** The notice verdict: when the classifier calls an expression usable under weak copyleft, and what it leaves
    undecided. */
module LicenceVerdict {
  import opened Common
  import opened Licence
  import opened LicenceReading
  import opened LicenceSoundness

  predicate Usable(k: Class) {
    k == Permissive || k == WeakCopyleft
  }

  function UsableIn(cls: string -> Class): string -> bool {
    t => Usable(cls(t))
  }

  // ---------------------------------------------------------------- the reading behind the notice verdict

  /** The operands of a disjunction so far: one is permissive, none is bound to copyleft, one is usable. */
  datatype Tally = Tally(permissive: bool, clean: bool, usable: bool)

  const NO_OPERANDS := Tally(false, true, false)

  /** A permissive operand settles a disjunction; a usable one does as long as no operand is copyleft. */
  predicate Grants(t: Tally) {
    t.permissive || (t.clean && t.usable)
  }

  function Count(t: Tally, f: Factor, cls: string -> Class): Tally
    decreases f, 1
  {
    Tally(t.permissive || ReversedF(f, Good(cls, OnlyPermissive)),
          t.clean && ReversedF(f, Good(cls, NoCopyleft)),
          t.usable || NoticedF(f, cls))
  }

  /** OR binds tighter: `t` tells what the current disjunction has seen. */
  predicate Noticed(c: Chain, cls: string -> Class, t: Tally := NO_OPERANDS)
    decreases c, 0
  {
    match c
    case End(f) => Grants(Count(t, f, cls))
    case Link(f, op, rest) =>
      if op == AndOp then Grants(Count(t, f, cls)) && Noticed(rest, cls) else Noticed(rest, cls, Count(t, f, cls))
  }

  predicate NoticedF(f: Factor, cls: string -> Class)
    decreases f, 0
  {
    match f
    case Lit(text) => Usable(cls(text))
    case Group(inner) => Noticed(inner, cls)
  }

  lemma {:induction false} NoticedAndPieces(c: Chain, cls: string -> Class, t: Tally)
    ensures var ps := Pieces(c, AndOp);
            Noticed(c, cls, t) <==> Noticed(ps[0], cls, t) && forall i | 1 <= i < |ps| :: Noticed(ps[i], cls)
  {
    if c.Link? {
      var ps, tail := Pieces(c, AndOp), Pieces(c.rest, AndOp);
      if c.op == AndOp {
        NoticedAndPieces(c.rest, cls, NO_OPERANDS);
        assert forall i | 0 <= i < |tail| :: tail[i] == ps[i + 1];
      } else {
        NoticedAndPieces(c.rest, cls, Count(t, c.f, cls));
        assert forall i | 1 <= i < |tail| :: tail[i] == ps[i];
      }
    }
  }

  predicate AllRead(ps: seq<Chain>, good: string -> bool) {
    forall i | 0 <= i < |ps| :: Reversed(ps[i], good)
  }

  lemma AllReadCons(p: Chain, tail: seq<Chain>, good: string -> bool)
    ensures AllRead([p] + tail, good) <==> Reversed(p, good) && AllRead(tail, good)
  {
    var ps := [p] + tail;
    assert ps[0] == p && forall i | 0 <= i < |tail| :: ps[i + 1] == tail[i];
  }

  /** Some factor of a pure disjunction is usable on its own. */
  predicate SomeUsable(c: Chain, cls: string -> Class) {
    NoticedF(c.f, cls) || (c.Link? && SomeUsable(c.rest, cls))
  }

  lemma {:induction false} SomeUsablePiece(c: Chain, cls: string -> Class)
    requires NoSlash(c) && OneLevel(c, false)
    requires forall p | p in Pieces(c, OrOp) && p.End? :: Noticed(p, cls) == NoticedF(p.f, cls)
    ensures SomeUsable(c, cls) <==> SomeNoticed(Pieces(c, OrOp), cls)
  {
    var ps := Pieces(c, OrOp);
    assert ps[0] in ps && ps[0] == End(c.f);
    if c.Link? {
      var tail := Pieces(c.rest, OrOp);
      assert ps == [End(c.f)] + tail && forall i | 0 <= i < |tail| :: ps[i + 1] == tail[i];
      SomeUsablePiece(c.rest, cls);
    }
  }

  lemma {:induction false} NoticedOr(c: Chain, cls: string -> Class, t: Tally)
    requires NoSlash(c) && OneLevel(c, false)
    ensures var ps := Pieces(c, OrOp);
            Noticed(c, cls, t) <==> Grants(Tally(t.permissive || SomeReads(ps, Good(cls, OnlyPermissive)),
                                                 t.clean && AllRead(ps, Good(cls, NoCopyleft)),
                                                 t.usable || SomeUsable(c, cls)))
  {
    if c.End? {
      assert Pieces(c, OrOp) == [c] + [];
      SomeReadsCons(c, [], Good(cls, OnlyPermissive));
      AllReadCons(c, [], Good(cls, NoCopyleft));
    } else {
      NoticedOr(c.rest, cls, Count(t, c.f, cls));
      SomeReadsCons(End(c.f), Pieces(c.rest, OrOp), Good(cls, OnlyPermissive));
      AllReadCons(End(c.f), Pieces(c.rest, OrOp), Good(cls, NoCopyleft));
    }
  }

  // ---------------------------------------------------------------- the class of printed text

  lemma AndUsable(cs: seq<Class>)
    ensures Usable(AndClass(cs)) <==> forall i | 0 <= i < |cs| :: Usable(cs[i])
  {
  }

  lemma OrUsable(cs: seq<Class>)
    requires cs != []
    ensures Usable(OrClass(cs)) <==>
            || (exists i | 0 <= i < |cs| :: Meets(cs[i], OnlyPermissive))
            || ((forall i | 0 <= i < |cs| :: Meets(cs[i], NoCopyleft)) && exists i | 0 <= i < |cs| :: Usable(cs[i]))
  {
    assert cs[0] in cs && forall i | 0 <= i < |cs| :: cs[i] in cs;
    if Permissive in cs {
      var i :| 0 <= i < |cs| && cs[i] == Permissive;
      assert Meets(cs[i], OnlyPermissive);
    }
    if WeakCopyleft in cs {
      var i :| 0 <= i < |cs| && cs[i] == WeakCopyleft;
      assert Usable(cs[i]);
    }
  }

  /** The class of one factor, read off the two bars and the notice reading. */
  lemma FactorGrants(f: Factor, cls: string -> Class)
    requires NoSlash(End(f))
    requires Usable(ExprClass(Print(End(f)), cls)) == NoticedF(f, cls)
    ensures Noticed(End(f), cls) == NoticedF(f, cls)
  {
    ClassIsReversed(End(f), cls, OnlyPermissive);
    ClassIsReversed(End(f), cls, NoCopyleft);
  }

  /** A class is usable exactly when the notice reading holds. */
  lemma {:induction false} UsableIsNoticed(c: Chain, cls: string -> Class)
    requires NoSlash(c)
    ensures Usable(ExprClass(Print(c), cls)) == Noticed(c, cls)
    ensures c.End? ==> Noticed(c, cls) == NoticedF(c.f, cls)
    decreases |Print(c)|, 2
  {
    if c.End? {
      if c.f.Group? {
        GroupIsTransparent(c.f.inner, cls);
        UsableIsNoticed(c.f.inner, cls);
      } else {
        ClassOfAtom(c.f.text, cls);
      }
      FactorGrants(c.f, cls);
    } else {
      PiecesFacts(c, AndOp);
      PiecesFacts(c, OrOp);
      if |Pieces(c, AndOp)| > 1 {
        UsableAnd(c, cls);
      } else {
        UsableOr(c, cls);
      }
    }
  }

  lemma {:induction false} UsableAnd(c: Chain, cls: string -> Class)
    requires NoSlash(c) && c.Link? && |Pieces(c, AndOp)| > 1
    ensures Usable(ExprClass(Print(c), cls)) == Noticed(c, cls)
    decreases |Print(c)|, 1
  {
    var ps := Pieces(c, AndOp);
    var classes := PieceClasses(ps, cls);
    PiecesFacts(c, AndOp);
    forall i | 0 <= i < |ps| ensures Usable(classes[i]) == Noticed(ps[i], cls) {
      UsableIsNoticed(ps[i], cls);
    }
    AndParts(c, cls);
    AndUsable(classes);
    NoticedAndPieces(c, cls, NO_OPERANDS);
  }

  predicate SomeNoticed(ps: seq<Chain>, cls: string -> Class) {
    exists i | 0 <= i < |ps| :: Noticed(ps[i], cls)
  }

  /** The three questions about a piece, answered by its class. */
  predicate Answers(k: Class, p: Chain, cls: string -> Class) {
    && Usable(k) == Noticed(p, cls)
    && Meets(k, OnlyPermissive) == Reversed(p, Good(cls, OnlyPermissive))
    && Meets(k, NoCopyleft) == Reversed(p, Good(cls, NoCopyleft))
  }

  lemma OrAnswers(ps: seq<Chain>, ks: seq<Class>, cls: string -> Class)
    requires |ks| == |ps| > 0 && forall i | 0 <= i < |ps| :: Answers(ks[i], ps[i], cls)
    ensures Usable(OrClass(ks)) <==>
            Grants(Tally(SomeReads(ps, Good(cls, OnlyPermissive)), AllRead(ps, Good(cls, NoCopyleft)),
                         SomeNoticed(ps, cls)))
  {
    OrUsable(ks);
    assert SomeReads(ps, Good(cls, OnlyPermissive)) <==> exists i | 0 <= i < |ks| :: Meets(ks[i], OnlyPermissive);
    assert SomeNoticed(ps, cls) <==> exists i | 0 <= i < |ks| :: Usable(ks[i]);
  }

  lemma {:induction false} PieceAnswers(ps: seq<Chain>, n: nat, cls: string -> Class)
    requires forall i | 0 <= i < |ps| :: NoSlash(ps[i]) && |Print(ps[i])| < n
    ensures forall i | 0 <= i < |ps| :: Answers(PieceClasses(ps, cls)[i], ps[i], cls)
    ensures forall p | p in ps && p.End? :: Noticed(p, cls) == NoticedF(p.f, cls)
    decreases n, 0
  {
    forall i | 0 <= i < |ps|
      ensures Answers(PieceClasses(ps, cls)[i], ps[i], cls)
      ensures ps[i].End? ==> Noticed(ps[i], cls) == NoticedF(ps[i].f, cls)
    {
      UsableIsNoticed(ps[i], cls);
      ClassIsReversed(ps[i], cls, OnlyPermissive);
      ClassIsReversed(ps[i], cls, NoCopyleft);
    }
  }

  lemma {:induction false} UsableOr(c: Chain, cls: string -> Class)
    requires NoSlash(c) && c.Link? && OneLevel(c, false) && |Pieces(c, AndOp)| == 1 && |Pieces(c, OrOp)| > 1
    ensures Usable(ExprClass(Print(c), cls)) == Noticed(c, cls)
    decreases |Print(c)|, 1
  {
    var ps := Pieces(c, OrOp);
    PiecesFacts(c, OrOp);
    PieceAnswers(ps, |Print(c)|, cls);
    OrParts(c, cls);
    OrAnswers(ps, PieceClasses(ps, cls), cls);
    NoticedOr(c, cls, NO_OPERANDS);
    SomeUsablePiece(c, cls);
  }

  lemma {:induction false} SlashToOrNotices(c: Chain, cls: string -> Class, t: Tally)
    ensures Noticed(SlashToOr(c), cls, t) == Noticed(c, cls, t)
    decreases c
  {
    SlashToOrCounts(c.f, cls, t);
    if c.Link? {
      SlashToOrNotices(c.rest, cls, Count(t, c.f, cls));
      SlashToOrNotices(c.rest, cls, NO_OPERANDS);
    }
  }

  lemma {:induction false} SlashToOrCounts(f: Factor, cls: string -> Class, t: Tally)
    ensures Count(t, SlashToOr(End(f)).f, cls) == Count(t, f, cls)
    decreases f
  {
    if f.Group? {
      SlashToOrNotices(f.inner, cls, NO_OPERANDS);
      SlashToOrReads(f.inner, Good(cls, OnlyPermissive), false);
      SlashToOrReads(f.inner, Good(cls, NoCopyleft), false);
    }
  }

  // ---------------------------------------------------------------- theorems

  /** On every well-formed expression the class is permissive or weak copyleft exactly when the notice reading
      holds: in every conjunct some operand is permissive, or one is usable and none is bound to copyleft. */
  lemma NoticeReading(c: Chain, cls: string -> Class)
    ensures Usable(ExprClass(Print(c), cls)) <==> Noticed(c, cls)
  {
    SlashToOrPrints(c);
    CleanPrint(SlashToOr(c));
    assert SplitOrAnd(Print(SlashToOr(c))) == SplitOrAnd(Print(c));
    UsableIsNoticed(SlashToOr(c), cls);
    SlashToOrNotices(c, cls, NO_OPERANDS);
  }

  lemma {:induction false} ReadsMore(c: Chain, good: string -> bool, better: string -> bool, acc: bool, acc': bool)
    requires forall t :: good(t) ==> better(t)
    requires Reversed(c, good, acc) && (acc ==> acc')
    ensures Reversed(c, better, acc')
    decreases c
  {
    if c.f.Group? && Reversed(c.f.inner, good) { ReadsMore(c.f.inner, good, better, false, false); }
    if c.Link? && c.op == AndOp {
      ReadsMore(c.rest, good, better, false, false);
    } else if c.Link? {
      ReadsMore(c.rest, good, better, acc || ReversedF(c.f, good), acc' || ReversedF(c.f, better));
    }
  }

  lemma PermissiveIsUsable(f: Factor, cls: string -> Class)
    ensures ReversedF(f, Good(cls, OnlyPermissive)) ==> ReversedF(f, UsableIn(cls))
  {
    forall t | Good(cls, OnlyPermissive)(t) ensures UsableIn(cls)(t) {
      assert Meets(cls(t), OnlyPermissive);
    }
    if ReversedF(f, Good(cls, OnlyPermissive)) {
      ReadsMore(End(f), Good(cls, OnlyPermissive), UsableIn(cls), false, false);
    }
  }

  lemma {:induction false} NoticedIsReversed(c: Chain, cls: string -> Class, t: Tally, acc: bool)
    requires Noticed(c, cls, t) && (t.permissive || t.usable ==> acc)
    ensures Reversed(c, UsableIn(cls), acc)
    decreases c
  {
    PermissiveIsUsable(c.f, cls);
    match c.f {
      case Lit(text) => assert UsableIn(cls)(text) == Usable(cls(text));
      case Group(inner) => if Noticed(inner, cls) { NoticedIsReversed(inner, cls, NO_OPERANDS, false); }
    }
    assert NoticedF(c.f, cls) ==> ReversedF(c.f, UsableIn(cls));
    if c.Link? && c.op == AndOp {
      NoticedIsReversed(c.rest, cls, NO_OPERANDS, false);
    } else if c.Link? {
      NoticedIsReversed(c.rest, cls, Count(t, c.f, cls), acc || ReversedF(c.f, UsableIn(cls)));
    }
  }

  /** Whatever the nesting and mixing: a usable class means some resolution consists of permissive and weak
      copyleft licences only. */
  lemma NoticeIsSound(c: Chain, cls: string -> Class)
    requires Usable(ExprClass(Print(c), cls))
    ensures SomeGood(Resolutions(c), UsableIn(cls))
  {
    NoticeReading(c, cls);
    NoticedIsReversed(c, cls, NO_OPERANDS, false);
    ReversedImpliesStandard(c, UsableIn(cls));
    EmptyIsGood(UsableIn(cls));
    StandardIsChoice(c, {{}}, UsableIn(cls));
  }

  /** The whole verdict on licence texts, each answer with its exact condition. */
  lemma VerdictTable(c: Chain)
    ensures var v := Compatibility(Some(Print(c)));
            var permissive := Reversed(c, Good(TextClass, OnlyPermissive));
            var escapes := Reversed(c, Good(TextClass, NoCopyleft));
            && (v == PermissiveOption <==> permissive && OuterOr(c))
            && (v == PermissiveOnly <==> permissive && !OuterOr(c))
            && (v == NoticeRequired <==> Noticed(c, TextClass) && !permissive)
            && (v == Incompatible <==> !escapes)
            && (v == CannotConclude <==> escapes && !Noticed(c, TextClass))
  {
    ClassifierReading(c, TextClass, OnlyPermissive);
    ClassifierReading(c, TextClass, NoCopyleft);
    NoticeReading(c, TextClass);
    KindOfText(c);
    if Print(c) == [Atom("UNDECLARED")] || Print(c) == [Atom("UNCLASSIFIED_LICENSE_TEXT")] {
      PlaceholderIsUnknown(Print(c)[0].text);
      ClassOfAtom(Print(c)[0].text, TextClass);
    }
  }

  /** A notice is asked for only when some resolution consists of permissive and weak copyleft licences; and
      an unmixed expression that can avoid copyleft, but not unknown licences, is left undecided. */
  lemma NoticeVerdictIsSound(c: Chain)
    ensures Compatibility(Some(Print(c))) == NoticeRequired ==> SomeGood(Resolutions(c), UsableIn(TextClass))
    ensures Unmixed(c) && SomeGood(Resolutions(c), Good(TextClass, NoCopyleft))
            && (forall r | r in Resolutions(c) :: exists a | a in r :: TextClass(a) == Unknown)
            ==> Compatibility(Some(Print(c))) == CannotConclude
  {
    VerdictTable(c);
    NoticeReading(c, TextClass);
    if Usable(ExprClass(Print(c), TextClass)) {
      NoticeIsSound(c, TextClass);
      var r :| r in Resolutions(c) && AllOf(r, UsableIn(TextClass));
      forall a | a in r ensures TextClass(a) != Unknown { assert UsableIn(TextClass)(a); }
    }
    if Unmixed(c) {
      UnmixedMeets(c, TextClass, NoCopyleft);
      ClassifierReading(c, TextClass, NoCopyleft);
    }
  }

  // ---------------------------------------------------------------- where a usable choice goes unnoticed

  /** No OR at any level. */
  predicate NoChoice(c: Chain) {
    && (c.f.Group? ==> NoChoice(c.f.inner))
    && (c.Link? ==> c.op == AndOp && NoChoice(c.rest))
  }

  lemma {:induction false} NoChoiceIsUnmixed(c: Chain)
    requires NoChoice(c)
    ensures Unmixed(c) && OneLevel(c, true) && NoSlash(c)
  {
    if c.f.Group? { NoChoiceIsUnmixed(c.f.inner); }
    if c.Link? { NoChoiceIsUnmixed(c.rest); }
  }

  lemma {:induction false} NoChoiceNoticed(c: Chain, cls: string -> Class)
    requires NoChoice(c)
    ensures Noticed(c, cls) <==> Reversed(c, UsableIn(cls))
  {
    NoChoiceIsUnmixed(c);
    UsableIsNoticed(End(c.f), cls);
    if c.f.Group? { NoChoiceNoticed(c.f.inner, cls); }
    if c.Link? { NoChoiceNoticed(c.rest, cls); }
  }

  function WeakOn(g: set<string>): string -> Class {
    t => if t in g then WeakCopyleft else Copyleft
  }

  lemma WeakOnReads(c: Chain, g: set<string>, acc: bool)
    ensures Reversed(c, UsableIn(WeakOn(g)), acc) == Reversed(c, In(g), acc)
    ensures Standard(c, UsableIn(WeakOn(g)), acc) == Standard(c, In(g), acc)
    ensures Reversed(c, Good(WeakOn(g), NoCopyleft), acc) == Reversed(c, In(g), acc)
    ensures Reversed(c, Good(WeakOn(g), OnlyPermissive), acc) == Reversed(c, In({}), acc)
  {
    var cls := WeakOn(g);
    forall t
      ensures UsableIn(cls)(t) == In(g)(t) && Good(cls, NoCopyleft)(t) == In(g)(t)
      ensures Good(cls, OnlyPermissive)(t) == In({})(t)
    {
      assert cls(t) == if t in g then WeakCopyleft else Copyleft;
      assert Good(cls, NoCopyleft)(t) == Meets(cls(t), NoCopyleft);
      assert Good(cls, OnlyPermissive)(t) == Meets(cls(t), OnlyPermissive);
    }
    SameReading(c, UsableIn(cls), In(g), acc);
    SameReading(c, Good(cls, NoCopyleft), In(g), acc);
    SameReading(c, Good(cls, OnlyPermissive), In({}), acc);
  }

  lemma {:induction false} NoticedLocal(c: Chain, g: set<string>, h: set<string>, t: Tally)
    requires g * Atoms(c) == h * Atoms(c)
    ensures Noticed(c, WeakOn(g), t) == Noticed(c, WeakOn(h), t)
    decreases c
  {
    forall a | a in AtomsF(c.f) ensures a in g <==> a in h {
      assert a in g * Atoms(c) <==> a in h * Atoms(c);
    }
    CountLocal(c.f, g, h, t);
    if c.Link? {
      assert g * Atoms(c.rest) == (g * Atoms(c)) * Atoms(c.rest) == h * Atoms(c.rest);
      NoticedLocal(c.rest, g, h, Count(t, c.f, WeakOn(g)));
      NoticedLocal(c.rest, g, h, NO_OPERANDS);
    }
  }

  lemma {:induction false} CountLocal(f: Factor, g: set<string>, h: set<string>, t: Tally)
    requires forall a | a in AtomsF(f) :: a in g <==> a in h
    ensures Count(t, f, WeakOn(g)) == Count(t, f, WeakOn(h))
    decreases f
  {
    WeakOnReads(End(f), g, false);
    WeakOnReads(End(f), h, false);
    assert g * Atoms(End(f)) == h * Atoms(End(f));
    Local(End(f), g, h, false);
    if f.Group? { NoticedLocal(f.inner, g, h, NO_OPERANDS); }
  }

  /** Under weak and copyleft licences only, an operand without any weak licence spoils a disjunction. */
  lemma {:induction false} CopyleftSpoils(c: Chain, g: set<string>, t: Tally)
    requires OneLevel(c, false) && Atoms(c) !! g && !t.permissive
    ensures !Noticed(c, WeakOn(g), t)
    decreases c
  {
    WeakOnReads(End(c.f), g, false);
    NoneGood(End(c.f), g, false);
    NoneGood(End(c.f), {}, false);
    if c.Link? { CopyleftSpoils(c.rest, g, Count(t, c.f, WeakOn(g))); }
  }

  lemma UnnoticedFactor(f: Factor, g: set<string>)
    requires !NoticedF(f, WeakOn(g))
    ensures !Grants(Count(NO_OPERANDS, f, WeakOn(g)))
  {
    WeakOnReads(End(f), g, false);
    NoneGood(End(f), {}, false);
  }

  /** An expression with a choice has weak and copyleft licences under which a usable choice goes unnoticed. */
  lemma {:induction false} ChoiceUnnoticed(c: Chain) returns (g: set<string>)
    requires Distinct(c) && Unmixed(c) && !NoChoice(c)
    ensures g <= Atoms(c) && Standard(c, In(g)) && !Noticed(c, WeakOn(g))
    decreases c
  {
    if c.Link? && c.op != AndOp {
      g := AtomsF(c.f);
      AllGood(End(c.f), g, false);
      WeakOnReads(End(c.f), g, false);
      NoneGood(End(c.f), {}, false);
      CopyleftSpoils(c.rest, g, Count(NO_OPERANDS, c.f, WeakOn(g)));
    } else if c.f.Group? && !NoChoice(c.f.inner) {
      var h := ChoiceUnnoticed(c.f.inner);
      g := if c.Link? then h + Atoms(c.rest) else h;
      Agree(c.f.inner, g, h);
      UnnoticedFactor(c.f, g);
      if c.Link? { AllGood(c.rest, g, false); }
    } else {
      var h := ChoiceUnnoticed(c.rest);
      g := h + AtomsF(c.f);
      Agree(c.rest, g, h);
      AllGood(End(c.f), g, false);
    }
  }

  lemma Agree(c: Chain, g: set<string>, h: set<string>)
    requires g * Atoms(c) == h * Atoms(c)
    ensures Standard(c, In(g)) == Standard(c, In(h))
    ensures Noticed(c, WeakOn(g)) == Noticed(c, WeakOn(h))
  {
    Local(c, g, h, true);
    NoticedLocal(c, g, h, NO_OPERANDS);
  }

  /** The class tells, whatever the classes of the licences are, whether some resolution is permissive or weak
      copyleft throughout, if and only if the expression offers no choice at all (licences occurring once each). */
  lemma NoticeFollowsIffNoChoice(c: Chain)
    requires Distinct(c)
    ensures NoChoice(c) <==>
            forall cls: string -> Class ::
              Usable(ExprClass(Print(c), cls)) <==> SomeGood(Resolutions(c), UsableIn(cls))
  {
    if NoChoice(c) {
      forall cls: string -> Class
        ensures Usable(ExprClass(Print(c), cls)) <==> SomeGood(Resolutions(c), UsableIn(cls))
      {
        NoChoiceFollows(c, cls);
      }
    } else {
      var g: set<string>;
      if Unmixed(c) { g := ChoiceUnnoticed(c); } else { g := MixedDisagree(c); }
      UnnoticedAt(c, g);
      var cls := WeakOn(g);
      assert !(Usable(ExprClass(Print(c), cls)) <==> SomeGood(Resolutions(c), UsableIn(cls)));
    }
  }

  lemma NoChoiceFollows(c: Chain, cls: string -> Class)
    requires NoChoice(c)
    ensures Usable(ExprClass(Print(c), cls)) <==> SomeGood(Resolutions(c), UsableIn(cls))
  {
    NoticeReading(c, cls);
    NoChoiceNoticed(c, cls);
    NoChoiceIsUnmixed(c);
    UnmixedAgree(c, UsableIn(cls));
    EmptyIsGood(UsableIn(cls));
    StandardIsChoice(c, {{}}, UsableIn(cls));
  }

  lemma UnnoticedAt(c: Chain, g: set<string>)
    requires Standard(c, In(g)) && (Unmixed(c) ==> !Noticed(c, WeakOn(g))) && (!Unmixed(c) ==> !Reversed(c, In(g)))
    ensures !Usable(ExprClass(Print(c), WeakOn(g))) && SomeGood(Resolutions(c), UsableIn(WeakOn(g)))
  {
    var cls := WeakOn(g);
    NoticeReading(c, cls);
    WeakOnReads(c, g, true);
    WeakOnReads(c, g, false);
    if Noticed(c, cls) { NoticedIsReversed(c, cls, NO_OPERANDS, false); }
    EmptyIsGood(UsableIn(cls));
    StandardIsChoice(c, {{}}, UsableIn(cls));
  }

  // ---------------------------------------------------------------- licence texts

  lemma UpperSlices(s: string)
    requires s != []
    ensures Upper(s)[1..] == Upper(s[1..]) && Upper(s)[..|s| - 1] == Upper(s[..|s| - 1])
    ensures IsSpace(Upper(s)[0]) == IsSpace(s[0]) && IsSpace(Upper(s)[|s| - 1]) == IsSpace(s[|s| - 1])
  {
  }

  lemma {:induction false} UpperLeading(s: string)
    ensures Upper(DropLeading(s, Blanks)) == DropLeading(Upper(s), Blanks)
    decreases |s|
  {
    if s != [] {
      UpperSlices(s);
      UpperLeading(s[1..]);
    }
  }

  lemma {:induction false} UpperTrailing(s: string)
    ensures Upper(DropTrailing(s, Blanks)) == DropTrailing(Upper(s), Blanks)
    decreases |s|
  {
    if s != [] {
      UpperSlices(s);
      UpperTrailing(s[..|s| - 1]);
    }
  }

  lemma UpperStrip(s: string)
    ensures Strip(Upper(s)) == Upper(Strip(s)) && Strip(Strip(s)) == Strip(s) && Upper(Upper(s)) == Upper(s)
  {
    UpperLeading(s);
    UpperTrailing(DropLeading(s, Blanks));
    var t := Strip(s);
    assert t == [] || (t[0] == DropLeading(s, Blanks)[0] && !IsSpace(t[0]) && !IsSpace(t[|t| - 1]));
    assert DropLeading(t, Blanks) == t && DropTrailing(t, Blanks) == t;
  }

  lemma SameNormalSameClass(a: string, b: string)
    requires Normalize(a) == Normalize(b)
    ensures TextClass(a) == TextClass(b)
  {
  }

  /** The class of a text does not depend on the case of its letters or on blanks around it. */
  lemma ClassIgnoresCase(text: string)
    ensures TextClass(Upper(text)) == TextClass(text) == TextClass(Strip(text))
  {
    UpperStrip(text);
    UpperStrip(Strip(text));
    SameNormalSameClass(Upper(text), text);
    SameNormalSameClass(Strip(text), text);
  }

  /** The letters that keep the two lists and the licence families apart. */
  lemma CopyleftLetters(tok: string)
    requires tok in COPYLEFT_TOKENS
    ensures |tok| >= 7 && tok[0] in "GALSBC"
    ensures (tok[0] == 'A' ==> tok[1] == 'G') && (tok[0] == 'B' ==> tok[1] == 'U') && (tok[0] == 'C' ==> tok[1] == 'O')
  {
  }

  lemma PermissiveLetters(tok: string)
    requires tok in PERMISSIVE_TOKENS
    ensures |tok| >= 3 && tok[0] in "MABIUZ0C"
    ensures (tok[0] == 'A' ==> tok[1] == 'P') && (tok[0] == 'B' ==> tok[1] == 'S') && (tok[0] == 'C' ==> tok[1] == 'D')
  {
  }

  lemma FamilyLetters(tok: string)
    ensures "GPL" <= tok ==> tok[0] == 'G'
    ensures "AGPL" <= tok ==> tok[0] == 'A' && tok[1] == 'G'
    ensures "APACHE-2.0" <= tok ==> tok[0] == 'A' && tok[1] == 'P'
  {
    if "GPL" <= tok { assert tok[0] == "GPL"[0]; }
    if "AGPL" <= tok { assert tok[0] == "AGPL"[0] && tok[1] == "AGPL"[1]; }
    if "APACHE-2.0" <= tok { assert tok[0] == "APACHE-2.0"[0] && tok[1] == "APACHE-2.0"[1]; }
  }

  lemma ListedAreApart(tok: string)
    requires tok in PERMISSIVE_TOKENS || "APACHE-2.0" <= tok
    ensures tok !in COPYLEFT_TOKENS && !StartsWith(tok, "GPL") && !StartsWith(tok, "AGPL")
  {
    FamilyLetters(tok);
    if tok in PERMISSIVE_TOKENS { PermissiveLetters(tok); }
    if tok in COPYLEFT_TOKENS { CopyleftLetters(tok); }
  }

  /** What decides the class of a text, in its normal form: a listed name or the family it begins with, and among
      the rest whether it names the LGPL. */
  lemma TextClassTable(text: string)
    ensures var tok := Normalize(text);
            && (tok in COPYLEFT_TOKENS || "GPL" <= tok || "AGPL" <= tok <==> TextClass(text) == Copyleft)
            && (tok in PERMISSIVE_TOKENS || "APACHE-2.0" <= tok <==> TextClass(text) == Permissive)
            && (TextClass(text) == WeakCopyleft ==> Contains(tok, "LGPL"))
            && (TextClass(text) == Unknown ==> !Contains(tok, "LGPL"))
  {
    var tok := Normalize(text);
    if tok in PERMISSIVE_TOKENS || "APACHE-2.0" <= tok { ListedAreApart(tok); }
  }

  lemma ListedLesser(tok: string)
    ensures tok in COPYLEFT_TOKENS && tok[0] == 'L' ==> |tok| != 13 || tok[5] == '2'
    ensures tok in COPYLEFT_TOKENS && tok[0] == 'C' ==> tok[1] == 'O'
    ensures tok in PERMISSIVE_TOKENS ==> tok[0] != 'L' && (tok[0] == 'C' ==> tok[1] == 'D')
  {
  }

  lemma WeakText(tok: string)
    requires Normalize(tok) == tok && |tok| == 13 && "LGPL" <= tok && tok[5] != '2'
    ensures TextClass(tok) == WeakCopyleft
  {
    ListedLesser(tok);
    assert tok[0] == 'L' && tok[0..] == tok;
    assert Contains(tok, "LGPL");
  }

  lemma UnlistedText(tok: string)
    requires Normalize(tok) == tok && |tok| >= 2 && tok[0] == 'C' && tok[1] == 'C' && 'G' !in tok
    ensures TextClass(tok) == Unknown
  {
    ListedLesser(tok);
    NamesWeak(tok);
  }

  lemma LesserText(text: string, tok: string)
    requires Upper(text) == tok && |tok| == 13 && "LGPL" <= tok && tok[5] != '2' && AllCapitals(tok)
    ensures TextClass(text) == WeakCopyleft
  {
    ClassIgnoresCase(text);
    NormalForm(tok);
    WeakText(tok);
  }

  lemma LesserLetters(text: string)
    requires text == "LGPL-3.0-only"
    ensures var tok := Upper(text); |tok| == 13 && "LGPL" <= tok && tok[5] != '2' && AllCapitals(tok)
  {
    assert Upper(text)[..4] == "LGPL";
  }

  lemma LesserExample(text: string)
    requires text == "LGPL-3.0-only"
    ensures TextClass(text) == WeakCopyleft
  {
    LesserLetters(text);
    LesserText(text, Upper(text));
  }

  lemma UnlistedExample(text: string)
    requires text == "CC-BY-4.0"
    ensures TextClass(text) == Unknown
  {
    NormalForm(text);
    UnlistedText(text);
  }

  /** One licence the inventory knows as weak copyleft, one as strong, and one it does not know. */
  lemma ExampleTexts()
    ensures TextClass("LGPL-3.0-only") == WeakCopyleft
    ensures TextClass("GPL-3.0") == Copyleft
    ensures TextClass("CC-BY-4.0") == Unknown
  {
    ExampleClasses();
    LesserExample("LGPL-3.0-only");
    UnlistedExample("CC-BY-4.0");
  }

  lemma AtomAnswers(text: string, cls: string -> Class)
    ensures Answers(cls(text), End(Lit(text)), cls)
  {
    ClassOfAtom(text, cls);
    UsableIsNoticed(End(Lit(text)), cls);
    ClassIsReversed(End(Lit(text)), cls, OnlyPermissive);
    ClassIsReversed(End(Lit(text)), cls, NoCopyleft);
  }

  /** Their verdicts: a notice for the weak one, incompatible for the strong one, undecided for the unlisted. */
  lemma ExampleVerdicts()
    ensures Compatibility(Some([Atom("LGPL-3.0-only")])) == NoticeRequired
    ensures Compatibility(Some([Atom("GPL-3.0")])) == Incompatible
    ensures Compatibility(Some([Atom("CC-BY-4.0")])) == CannotConclude
  {
    ExampleTexts();
    forall text: string ensures Print(End(Lit(text))) == [Atom(text)] { }
    AtomAnswers("LGPL-3.0-only", TextClass);
    VerdictTable(End(Lit("LGPL-3.0-only")));
    AtomAnswers("GPL-3.0", TextClass);
    VerdictTable(End(Lit("GPL-3.0")));
    AtomAnswers("CC-BY-4.0", TextClass);
    VerdictTable(End(Lit("CC-BY-4.0")));
  }

  /** `a OR z`, a weak and a strong copyleft licence: `a` may be chosen, yet nothing is concluded. */
  lemma WeakChoiceGap(a: string, z: string)
    requires TextClass(a) == WeakCopyleft && TextClass(z) == Copyleft
    ensures var c := Link(Lit(a), OrOp, End(Lit(z)));
            Compatibility(Some(Print(c))) == CannotConclude && {a} in Resolutions(c)
  {
    var c := Link(Lit(a), OrOp, End(Lit(z)));
    AtomAnswers(a, TextClass);
    AtomAnswers(z, TextClass);
    assert Count(NO_OPERANDS, Lit(a), TextClass) == Tally(false, true, true);
    assert Count(Tally(false, true, true), Lit(z), TextClass) == Tally(false, false, true);
    assert !Noticed(c, TextClass);
    assert Reversed(End(Lit(z)), Good(TextClass, NoCopyleft), true);
    VerdictTable(c);
    assert {} + {a} == {a};
    assert {a} in Cross({{}}, {{a}});
  }

  /** LGPL-3.0-only OR GPL-3.0. */
  lemma WeakChoiceCounterexample()
    ensures var c := Link(Lit("LGPL-3.0-only"), OrOp, End(Lit("GPL-3.0")));
            && Compatibility(Some(Print(c))) == CannotConclude
            && {"LGPL-3.0-only"} in Resolutions(c) && TextClass("LGPL-3.0-only") == WeakCopyleft
  {
    ExampleTexts();
    WeakChoiceGap("LGPL-3.0-only", "GPL-3.0");
  }
}
