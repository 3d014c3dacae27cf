/** From the token level to the readings: what the classifier answers on the text of an expression. */
module LicenceSoundness {
  import opened Common
  import opened Licence
  import opened LicenceReading

  // ---------------------------------------------------------------- parentheses of printed text

  /** Closed, and no prefix closes more than it opened. */
  predicate Balanced(ts: seq<Token>) {
    Depth(ts) == 0 && forall k | 0 <= k <= |ts| :: Depth(ts[..k]) >= 0
  }

  lemma {:induction false} DepthConcat(a: seq<Token>, b: seq<Token>)
    ensures Depth(a + b) == Depth(a) + Depth(b)
  {
    if b == [] {
      assert a + b == a;
    } else {
      DepthConcat(a, b[..|b| - 1]);
      assert (a + b)[..|a + b| - 1] == a + b[..|b| - 1];
    }
  }

  lemma BalancedConcat(a: seq<Token>, b: seq<Token>)
    requires Balanced(a) && Balanced(b)
    ensures Balanced(a + b)
  {
    DepthConcat(a, b);
    forall k | 0 <= k <= |a + b| ensures Depth((a + b)[..k]) >= 0 {
      if k <= |a| {
        assert (a + b)[..k] == a[..k];
      } else {
        assert (a + b)[..k] == a + b[..k - |a|];
        DepthConcat(a, b[..k - |a|]);
      }
    }
  }

  /** Parentheses put around balanced text are the ones `StripParens` takes off. */
  lemma WrapBalanced(a: seq<Token>)
    requires Balanced(a)
    ensures Balanced([LParen] + a + [RParen])
    ensures Wrapped([LParen] + a + [RParen])
    ensures StripParens([LParen] + a + [RParen]) == StripParens(a)
  {
    var w := [LParen] + a + [RParen];
    forall k | 0 < k <= |a| + 1 ensures Depth(w[..k]) >= 1 {
      assert w[..k] == [LParen] + a[..k - 1];
      DepthConcat([LParen], a[..k - 1]);
    }
    assert w[..|w| - 1] == w[..|a| + 1] == [LParen] + a;
    DepthConcat([LParen], a);
    assert w[..|w|] == w;
    assert w[1..|w| - 1] == a;
  }

  lemma {:induction false} PrintBalancedF(f: Factor)
    ensures Balanced(PrintF(f))
  {
    match f
    case Lit(text) =>
      assert PrintF(f)[..0] == [] && PrintF(f)[..1] == PrintF(f);
    case Group(inner) =>
      PrintBalanced(inner);
      WrapBalanced(Print(inner));
  }

  lemma {:induction false} PrintBalanced(c: Chain)
    ensures Balanced(Print(c))
  {
    PrintBalancedF(c.f);
    if c.Link? {
      PrintBalanced(c.rest);
      var op := [OpToken(c.op)];
      assert op[..0] == [] && op[..1] == op;
      BalancedConcat(PrintF(c.f), op);
      BalancedConcat(PrintF(c.f) + op, Print(c.rest));
    }
  }

  /** Two or more factors are never taken for one parenthesised group. */
  lemma LinkNotWrapped(c: Chain)
    requires c.Link?
    ensures !Wrapped(Print(c))
  {
    var ts, first := Print(c), PrintF(c.f);
    if c.f.Group? {
      PrintBalancedF(c.f);
      assert ts[..|first|] == first;
      assert ClosesEarly(ts, |first| - 1);
    } else {
      assert ts[0] == first[0];
    }
  }

  // ---------------------------------------------------------------- splitting printed text

  predicate NoSlash(c: Chain) {
    && (c.f.Group? ==> NoSlash(c.f.inner))
    && (c.Link? ==> c.op != SlashOp && NoSlash(c.rest))
  }

  /** Inside parentheses nothing is cut. */
  lemma {:induction false} ScanNested(c: Chain, op: Token, depth: nat, open: bool, cur: seq<Token>, rest: seq<Token>)
    requires depth >= 1 && (op == And || op == Or) && NoSlash(c)
    ensures Scan(Print(c) + rest, op, depth, open, cur) == Scan(rest, op, depth, true, cur + Print(c))
    decreases c
  {
    match c
    case End(f) =>
      ScanFactor(f, op, depth, open, cur, rest);
    case Link(f, o, tail) =>
      var first, t := PrintF(f), [OpToken(o)];
      var after := Print(tail) + rest;
      LinkThen(first, t, Print(tail), rest);
      ScanFactor(f, op, depth, open, cur, t + after);
      var open' := ScanNestedOperator(o, op, depth, cur + first, after);
      ScanNested(tail, op, depth, open', cur + first + t, rest);
      LinkThen(cur, first, t, Print(tail));
  }

  lemma LinkThen(a: seq<Token>, b: seq<Token>, c: seq<Token>, d: seq<Token>)
    ensures a + b + c + d == a + (b + c + d) == a + (b + (c + d))
  {
  }

  lemma ScanNestedOperator(o: Op, op: Token, depth: nat, cur: seq<Token>, after: seq<Token>) returns (open: bool)
    requires depth >= 1 && (op == And || op == Or)
    ensures Scan([OpToken(o)] + after, op, depth, true, cur) == Scan(after, op, depth, open, cur + [OpToken(o)])
  {
    open := OpToken(o) != op || after == [];
    assert ([OpToken(o)] + after)[1..] == after;
  }

  /** A factor goes into the current part whole. */
  lemma {:induction false} ScanFactor(f: Factor, op: Token, depth: nat, open: bool, cur: seq<Token>, rest: seq<Token>)
    requires (op == And || op == Or) && NoSlash(End(f))
    ensures Scan(PrintF(f) + rest, op, depth, open, cur) == Scan(rest, op, depth, true, cur + PrintF(f))
    decreases f
  {
    match f
    case Lit(text) =>
      assert (PrintF(f) + rest)[1..] == rest;
    case Group(inner) =>
      var ts := PrintF(f) + rest;
      var tail := [RParen] + rest;
      assert ts[1..] == Print(inner) + tail;
      ScanNested(inner, op, depth + 1, true, cur + [LParen], tail);
      assert tail[1..] == rest;
      LinkThen(cur, [LParen], Print(inner), [RParen]);
  }

  /** The chains between the `op` links of a chain. */
  function Pieces(c: Chain, op: Op): (ps: seq<Chain>)
    ensures |ps| >= 1
  {
    match c
    case End(f) => [c]
    case Link(f, o, rest) =>
      var tail := Pieces(rest, op);
      if o == op then [End(f)] + tail else [Link(f, o, tail[0])] + tail[1..]
  }

  predicate Prints(parts: seq<seq<Token>>, ps: seq<Chain>, cur: seq<Token>)
    requires |ps| >= 1
  {
    && |parts| == |ps|
    && parts[0] == cur + Print(ps[0])
    && forall i | 1 <= i < |ps| :: parts[i] == Print(ps[i])
  }

  lemma ScanOperator(o: Op, op: Op, cur: seq<Token>, tail: seq<Token>)
    requires op != SlashOp && tail != []
    ensures Scan([OpToken(o)] + tail, OpToken(op), 0, true, cur) ==
            if o == op then [cur] + Scan(tail, OpToken(op), 0, false, [])
            else Scan(tail, OpToken(op), 0, true, cur + [OpToken(o)])
  {
    assert ([OpToken(o)] + tail)[1..] == tail;
  }

  /** One link of the scan: a factor, its operator, then the rest. */
  lemma ScanLink(f: Factor, o: Op, tail: seq<Token>, op: Op, open: bool, cur: seq<Token>)
    requires op != SlashOp && o != SlashOp && tail != [] && NoSlash(End(f))
    ensures Scan(PrintF(f) + [OpToken(o)] + tail, OpToken(op), 0, open, cur) ==
            if o == op then [cur + PrintF(f)] + Scan(tail, OpToken(op), 0, false, [])
            else Scan(tail, OpToken(op), 0, true, cur + PrintF(f) + [OpToken(o)])
  {
    assert PrintF(f) + [OpToken(o)] + tail == PrintF(f) + ([OpToken(o)] + tail);
    ScanFactor(f, OpToken(op), 0, open, cur, [OpToken(o)] + tail);
    ScanOperator(o, op, cur + PrintF(f), tail);
  }

  /** At the top level the cuts are exactly the `op` links. */
  lemma {:induction false} ScanPieces(c: Chain, op: Op, open: bool, cur: seq<Token>)
    requires op != SlashOp && NoSlash(c)
    ensures Prints(Scan(Print(c), OpToken(op), 0, open, cur), Pieces(c, op), cur)
  {
    if c.End? {
      assert PrintF(c.f) + [] == PrintF(c.f);
      ScanFactor(c.f, OpToken(op), 0, open, cur, []);
    } else {
      ScanLink(c.f, c.op, Print(c.rest), op, open, cur);
      if c.op == op {
        ScanPieces(c.rest, op, false, []);
        PrependPiece(Scan(Print(c.rest), OpToken(op), 0, false, []), Pieces(c.rest, op), cur, c.f);
      } else {
        var cur' := cur + PrintF(c.f) + [OpToken(c.op)];
        ScanPieces(c.rest, op, true, cur');
        ExtendPiece(Scan(Print(c.rest), OpToken(op), 0, true, cur'), Pieces(c.rest, op), cur, c.f, c.op);
      }
    }
  }

  lemma ExtendPiece(parts: seq<seq<Token>>, ps: seq<Chain>, cur: seq<Token>, f: Factor, o: Op)
    requires |ps| >= 1 && Prints(parts, ps, cur + PrintF(f) + [OpToken(o)])
    ensures Prints(parts, [Link(f, o, ps[0])] + ps[1..], cur)
  {
    assert cur + PrintF(f) + [OpToken(o)] + Print(ps[0]) == cur + Print(Link(f, o, ps[0]));
  }

  lemma PrependPiece(parts: seq<seq<Token>>, ps: seq<Chain>, cur: seq<Token>, f: Factor)
    requires |ps| >= 1 && Prints(parts, ps, [])
    ensures Prints([cur + PrintF(f)] + parts, [End(f)] + ps, cur)
  {
    assert parts[0] == Print(ps[0]);
  }

  lemma {:induction false} PiecesFacts(c: Chain, op: Op)
    requires NoSlash(c)
    ensures var ps := Pieces(c, op);
            && (forall i | 0 <= i < |ps| :: NoSlash(ps[i]) && |Print(ps[i])| <= |Print(c)|)
            && (|ps| > 1 ==> forall i | 0 <= i < |ps| :: |Print(ps[i])| < |Print(c)|)
    ensures op == AndOp ==> (|Pieces(c, op)| == 1 <==> OneLevel(c, false))
    ensures op == OrOp && OneLevel(c, false) && |Pieces(c, op)| == 1 ==> c.End?
  {
    if c.Link? {
      PiecesFacts(c.rest, op);
    }
  }

  lemma {:induction false} AndPieces(c: Chain, good: string -> bool, acc: bool)
    ensures var ps := Pieces(c, AndOp);
            Reversed(c, good, acc) <==> Reversed(ps[0], good, acc) && forall i | 1 <= i < |ps| :: Reversed(ps[i], good)
  {
    if c.Link? {
      var ps, tail := Pieces(c, AndOp), Pieces(c.rest, AndOp);
      AndPieces(c.rest, good, if c.op == AndOp then false else acc || ReversedF(c.f, good));
      if c.op == AndOp {
        assert forall i | 0 <= i < |tail| :: tail[i] == ps[i + 1];
      } else {
        assert forall i | 1 <= i < |tail| :: tail[i] == ps[i];
      }
    }
  }

  predicate SomeReads(ps: seq<Chain>, good: string -> bool) {
    exists i | 0 <= i < |ps| :: Reversed(ps[i], good)
  }

  lemma SomeReadsCons(p: Chain, tail: seq<Chain>, good: string -> bool)
    ensures SomeReads([p] + tail, good) <==> Reversed(p, good) || SomeReads(tail, good)
  {
    var ps := [p] + tail;
    if Reversed(p, good) { assert Reversed(ps[0], good); }
    if SomeReads(tail, good) {
      var i :| 0 <= i < |tail| && Reversed(tail[i], good);
      assert Reversed(ps[i + 1], good);
    }
    if SomeReads(ps, good) {
      var i :| 0 <= i < |ps| && Reversed(ps[i], good);
      assert i > 0 ==> Reversed(tail[i - 1], good);
    }
  }

  lemma {:induction false} OrPieces(c: Chain, good: string -> bool, acc: bool)
    requires NoSlash(c) && OneLevel(c, false)
    ensures Reversed(c, good, acc) <==> acc || SomeReads(Pieces(c, OrOp), good)
  {
    if c.End? {
      assert Pieces(c, OrOp) == [c] + [];
      SomeReadsCons(c, [], good);
    } else {
      OrPieces(c.rest, good, acc || ReversedF(c.f, good));
      SomeReadsCons(End(c.f), Pieces(c.rest, OrOp), good);
    }
  }

  // ---------------------------------------------------------------- the class of printed text

  /** The two questions the verdict rests on: is the class permissive, is it not copyleft. */
  datatype Bar = OnlyPermissive | NoCopyleft

  predicate Meets(k: Class, bar: Bar) {
    match bar
    case OnlyPermissive => k == Permissive
    case NoCopyleft => k != Copyleft
  }

  function Good(cls: string -> Class, bar: Bar): string -> bool {
    t => Meets(cls(t), bar)
  }

  lemma OrMeets(cs: seq<Class>, bar: Bar)
    requires cs != []
    ensures Meets(OrClass(cs), bar) <==> exists i | 0 <= i < |cs| :: Meets(cs[i], bar)
  {
    assert cs[0] in cs;
    assert forall i | 0 <= i < |cs| :: cs[i] in cs;
    if Meets(OrClass(cs), bar) {
      var c :| c in cs && Meets(c, bar);
    }
  }

  lemma AndMeets(cs: seq<Class>, bar: Bar)
    ensures Meets(AndClass(cs), bar) <==> forall i | 0 <= i < |cs| :: Meets(cs[i], bar)
  {
  }

  lemma CleanPrint(c: Chain)
    requires NoSlash(c)
    ensures Clean(Print(c)) == Print(c)
  {
    forall i | 0 <= i < |Print(c)| ensures Print(c)[i] != Slash { NoSlashPrinted(c, i); }
  }

  lemma {:induction false} NoSlashPrinted(c: Chain, i: nat)
    requires NoSlash(c) && i < |Print(c)|
    ensures Print(c)[i] != Slash
  {
    var first := PrintF(c.f);
    if i < |first| {
      if c.f.Group? && 0 < i < |first| - 1 {
        NoSlashPrinted(c.f.inner, i - 1);
      }
    } else if i > |first| {
      NoSlashPrinted(c.rest, i - |first| - 1);
    }
  }

  /** The class of the text of any expression meets a bar exactly when the OR-first reading does. */
  lemma {:induction false} ClassIsReversed(c: Chain, cls: string -> Class, bar: Bar)
    requires NoSlash(c)
    ensures Meets(ExprClass(Print(c), cls), bar) == Reversed(c, Good(cls, bar))
    decreases |Print(c)|
  {
    if c.End? {
      if c.f.Group? {
        GroupIsTransparent(c.f.inner, cls);
        ClassIsReversed(c.f.inner, cls, bar);
      } else {
        ClassOfAtom(c.f.text, cls);
      }
    } else {
      PiecesFacts(c, AndOp);
      PiecesFacts(c, OrOp);
      if |Pieces(c, AndOp)| > 1 {
        ClassOfAnd(c, cls, bar);
      } else {
        ClassOfOr(c, cls, bar);
      }
    }
  }

  lemma ScanAtom(text: string, op: Token)
    requires op == And || op == Or
    ensures Scan([Atom(text)], op, 0, false, []) == [[Atom(text)]]
  {
    var ts := [Atom(text)];
    assert ts[1..] == [] && [] + [ts[0]] == ts;
    assert Scan(ts[1..], op, 0, true, ts) == [ts];
  }

  lemma SplitAtom(text: string)
    ensures SplitOrAnd([Atom(text)]) == AtomOf([Atom(text)])
  {
    var ts := [Atom(text)];
    assert Clean(ts) == ts && StripParens(ts) == ts;
    ScanAtom(text, And);
    ScanAtom(text, Or);
    assert SplitTopLevel(ts, And) == None && SplitTopLevel(ts, Or) == None;
  }

  lemma ClassOfAtom(text: string, cls: string -> Class)
    ensures SplitOrAnd([Atom(text)]) == AtomOf([Atom(text)])
    ensures ExprClass([Atom(text)], cls) == cls(text)
  {
    SplitAtom(text);
    assert Render([Atom(text)]) == text;
  }

  lemma SameSplitSameClass(a: seq<Token>, b: seq<Token>, cls: string -> Class)
    requires SplitOrAnd(a) == SplitOrAnd(b)
    ensures ExprClass(a, cls) == ExprClass(b, cls)
  {
  }

  lemma SameStripSameSplit(a: seq<Token>, b: seq<Token>)
    requires StripParens(Clean(a)) == StripParens(Clean(b))
    ensures SplitOrAnd(a) == SplitOrAnd(b)
  {
  }

  lemma GroupIsTransparent(c: Chain, cls: string -> Class)
    requires NoSlash(c)
    ensures SplitOrAnd(Print(End(Group(c)))) == SplitOrAnd(Print(c))
    ensures ExprClass(Print(End(Group(c))), cls) == ExprClass(Print(c), cls)
  {
    PrintBalanced(c);
    WrapBalanced(Print(c));
    CleanPrint(c);
    CleanPrint(End(Group(c)));
    SameStripSameSplit(Print(End(Group(c))), Print(c));
    SameSplitSameClass(Print(End(Group(c))), Print(c), cls);
  }

  /** The classes the classifier combines: those of the pieces' own texts. */
  function PieceClasses(ps: seq<Chain>, cls: string -> Class): (classes: seq<Class>)
    ensures |classes| == |ps|
  {
    seq(|ps|, i requires 0 <= i < |ps| => ExprClass(Print(ps[i]), cls))
  }

  lemma ClassesOfParts(parts: seq<seq<Token>>, ps: seq<Chain>, cls: string -> Class)
    requires |ps| >= 1 && Prints(parts, ps, [])
    ensures seq(|parts|, i requires 0 <= i < |parts| => ExprClass(parts[i], cls)) == PieceClasses(ps, cls)
  {
    assert [] + Print(ps[0]) == Print(ps[0]);
    assert forall i | 0 <= i < |parts| :: parts[i] == Print(ps[i]);
  }

  lemma AndParts(c: Chain, cls: string -> Class)
    requires NoSlash(c) && c.Link? && |Pieces(c, AndOp)| > 1
    ensures ExprClass(Print(c), cls) == AndClass(PieceClasses(Pieces(c, AndOp), cls))
  {
    CleanPrint(c);
    LinkNotWrapped(c);
    ScanPieces(c, AndOp, false, []);
    ClassesOfParts(Scan(Print(c), And, 0, false, []), Pieces(c, AndOp), cls);
  }

  lemma OrParts(c: Chain, cls: string -> Class)
    requires NoSlash(c) && c.Link? && |Pieces(c, AndOp)| == 1 && |Pieces(c, OrOp)| > 1
    ensures ExprClass(Print(c), cls) == OrClass(PieceClasses(Pieces(c, OrOp), cls))
  {
    CleanPrint(c);
    LinkNotWrapped(c);
    ScanPieces(c, AndOp, false, []);
    ScanPieces(c, OrOp, false, []);
    ClassesOfParts(Scan(Print(c), Or, 0, false, []), Pieces(c, OrOp), cls);
  }

  lemma {:induction false} ClassOfAnd(c: Chain, cls: string -> Class, bar: Bar)
    requires NoSlash(c) && c.Link? && |Pieces(c, AndOp)| > 1
    ensures Meets(ExprClass(Print(c), cls), bar) == Reversed(c, Good(cls, bar))
    decreases |Print(c)|, 0
  {
    var ps := Pieces(c, AndOp);
    var classes := PieceClasses(ps, cls);
    PiecesFacts(c, AndOp);
    forall i | 0 <= i < |ps| ensures Meets(classes[i], bar) == Reversed(ps[i], Good(cls, bar)) {
      ClassIsReversed(ps[i], cls, bar);
    }
    AndParts(c, cls);
    AndMeets(classes, bar);
    AndPieces(c, Good(cls, bar), false);
  }

  lemma {:induction false} ClassOfOr(c: Chain, cls: string -> Class, bar: Bar)
    requires NoSlash(c) && c.Link? && OneLevel(c, false) && |Pieces(c, AndOp)| == 1 && |Pieces(c, OrOp)| > 1
    ensures Meets(ExprClass(Print(c), cls), bar) == Reversed(c, Good(cls, bar))
    decreases |Print(c)|, 0
  {
    var ps := Pieces(c, OrOp);
    var classes := PieceClasses(ps, cls);
    PiecesFacts(c, OrOp);
    forall i | 0 <= i < |ps| ensures Meets(classes[i], bar) == Reversed(ps[i], Good(cls, bar)) {
      ClassIsReversed(ps[i], cls, bar);
    }
    OrParts(c, cls);
    OrMeets(classes, bar);
    OrPieces(c, Good(cls, bar), false);
  }

  // ---------------------------------------------------------------- slashes

  function SlashToOr(c: Chain): (r: Chain)
    ensures NoSlash(r)
    decreases c
  {
    var f := match c.f case Lit(t) => c.f case Group(inner) => Group(SlashToOr(inner));
    match c
    case End(_) => End(f)
    case Link(_, op, rest) => Link(f, if op == AndOp then AndOp else OrOp, SlashToOr(rest))
  }

  lemma CleanWrap(ts: seq<Token>)
    ensures Clean([LParen] + ts + [RParen]) == [LParen] + Clean(ts) + [RParen]
  {
  }

  lemma CleanLink(a: seq<Token>, o: Op, b: seq<Token>)
    ensures Clean(a + [OpToken(o)] + b) == Clean(a) + [OpToken(if o == AndOp then AndOp else OrOp)] + Clean(b)
  {
  }

  lemma {:induction false} SlashToOrPrintsF(f: Factor)
    ensures PrintF(SlashToOr(End(f)).f) == Clean(PrintF(f))
    decreases f
  {
    match f
    case Lit(_) =>
    case Group(inner) =>
      SlashToOrPrints(inner);
      CleanWrap(Print(inner));
  }

  lemma {:induction false} SlashToOrPrints(c: Chain)
    ensures Print(SlashToOr(c)) == Clean(Print(c))
    decreases c
  {
    SlashToOrPrintsF(c.f);
    if c.Link? {
      SlashToOrPrints(c.rest);
      CleanLink(PrintF(c.f), c.op, Print(c.rest));
    }
  }

  lemma {:induction false} SlashToOrReads(c: Chain, good: string -> bool, acc: bool)
    ensures Reversed(SlashToOr(c), good, acc) == Reversed(c, good, acc)
  {
    if c.f.Group? { SlashToOrReads(c.f.inner, good, false); }
    if c.Link? { SlashToOrReads(c.rest, good, acc || ReversedF(c.f, good)); SlashToOrReads(c.rest, good, false); }
  }

  // ---------------------------------------------------------------- theorems

  /** On every well-formed expression the classifier computes the OR-first reading. */
  lemma ClassifierReading(c: Chain, cls: string -> Class, bar: Bar)
    ensures Meets(ExprClass(Print(c), cls), bar) <==> Reversed(c, Good(cls, bar))
  {
    var d := SlashToOr(c);
    SlashToOrPrints(c);
    CleanPrint(d);
    assert SplitOrAnd(Print(d)) == SplitOrAnd(Print(c));
    ClassIsReversed(d, cls, bar);
    SlashToOrReads(c, Good(cls, bar), false);
  }

  /** Below its outer parentheses the expression is a pure disjunction. */
  predicate OuterOr(c: Chain) {
    if c.End? then c.f.Group? && OuterOr(c.f.inner) else OneLevel(c, false)
  }

  lemma {:induction false} KindIsOuter(c: Chain)
    requires NoSlash(c)
    ensures SplitOrAnd(Print(c)).OrOf? <==> OuterOr(c)
  {
    if c.End? && c.f.Group? {
      GroupIsTransparent(c.f.inner, TextClass);
      KindIsOuter(c.f.inner);
    } else if c.End? {
      ClassOfAtom(c.f.text, TextClass);
    } else {
      CleanPrint(c);
      LinkNotWrapped(c);
      ScanPieces(c, AndOp, false, []);
      ScanPieces(c, OrOp, false, []);
      PiecesFacts(c, AndOp);
      PiecesFacts(c, OrOp);
    }
  }

  lemma KindOfText(c: Chain)
    ensures SplitOrAnd(Print(c)).OrOf? <==> OuterOr(c)
  {
    SlashToOrPrints(c);
    CleanPrint(SlashToOr(c));
    KindIsOuter(SlashToOr(c));
    SlashToOrOuter(c);
  }

  lemma {:induction false} SlashToOrOuter(c: Chain)
    ensures OuterOr(SlashToOr(c)) == OuterOr(c)
    ensures OneLevel(SlashToOr(c), false) == OneLevel(c, false)
  {
    if c.f.Group? { SlashToOrOuter(c.f.inner); }
    if c.Link? { SlashToOrOuter(c.rest); }
  }

  /** Whatever the nesting and mixing: a permissive class means the standard reading offers a choice of
      permissive licences only, and a class that is not copyleft means it offers one without copyleft. */
  lemma ClassifierIsSound(c: Chain, cls: string -> Class, bar: Bar)
    requires Meets(ExprClass(Print(c), cls), bar)
    ensures SomeGood(Resolutions(c), Good(cls, bar))
  {
    ClassifierReading(c, cls, bar);
    ReversedImpliesStandard(c, Good(cls, bar));
    EmptyIsGood(Good(cls, bar));
    StandardIsChoice(c, {{}}, Good(cls, bar));
  }

  lemma UnmixedMeets(c: Chain, cls: string -> Class, bar: Bar)
    requires Unmixed(c)
    ensures Meets(ExprClass(Print(c), cls), bar) <==> SomeGood(Resolutions(c), Good(cls, bar))
  {
    ClassifierReading(c, cls, bar);
    UnmixedAgree(c, Good(cls, bar));
    EmptyIsGood(Good(cls, bar));
    StandardIsChoice(c, {{}}, Good(cls, bar));
  }

  /** When no level mixes AND with OR the class is exact: permissive exactly when some resolution uses
      only permissive licences, copyleft exactly when every resolution contains a copyleft licence. */
  lemma UnmixedIsExact(c: Chain, cls: string -> Class)
    requires Unmixed(c)
    ensures ExprClass(Print(c), cls) == Permissive <==>
            exists r | r in Resolutions(c) :: forall a | a in r :: cls(a) == Permissive
    ensures ExprClass(Print(c), cls) == Copyleft <==>
            forall r | r in Resolutions(c) :: exists a :: a in r && cls(a) == Copyleft
  {
    UnmixedMeets(c, cls, OnlyPermissive);
    UnmixedMeets(c, cls, NoCopyleft);
    forall r: set<string>
      ensures AllOf(r, Good(cls, OnlyPermissive)) <==> forall a | a in r :: cls(a) == Permissive
      ensures AllOf(r, Good(cls, NoCopyleft)) <==> !exists a :: a in r && cls(a) == Copyleft
    {
    }
  }

  function PermissiveOn(g: set<string>): string -> Class {
    t => if t in g then Permissive else Copyleft
  }

  /** The classifier follows the standard whatever the classes of the licences are if and only if no level
      of the expression mixes AND with OR (licences occurring once each). */
  lemma FollowsStandardIffUnmixed(c: Chain, bar: Bar)
    requires Distinct(c)
    ensures Unmixed(c) <==>
            forall cls: string -> Class ::
              Meets(ExprClass(Print(c), cls), bar) <==> SomeGood(Resolutions(c), Good(cls, bar))
  {
    if Unmixed(c) {
      forall cls: string -> Class
        ensures Meets(ExprClass(Print(c), cls), bar) <==> SomeGood(Resolutions(c), Good(cls, bar))
      {
        UnmixedMeets(c, cls, bar);
      }
    } else {
      var g := MixedDisagree(c);
      var cls := PermissiveOn(g);
      forall t ensures Good(cls, bar)(t) == In(g)(t) {
        assert cls(t) == if t in g then Permissive else Copyleft;
        assert Good(cls, bar)(t) == Meets(cls(t), bar);
      }
      SameReading(c, Good(cls, bar), In(g), true);
      SameReading(c, Good(cls, bar), In(g), false);
      ClassifierReading(c, cls, bar);
      EmptyIsGood(Good(cls, bar));
      StandardIsChoice(c, {{}}, Good(cls, bar));
      assert !(Meets(ExprClass(Print(c), cls), bar) <==> SomeGood(Resolutions(c), Good(cls, bar)));
    }
  }

  lemma {:induction false} SameReading(c: Chain, good: string -> bool, good': string -> bool, acc: bool)
    requires forall t :: good(t) == good'(t)
    ensures Standard(c, good, acc) == Standard(c, good', acc)
    ensures Reversed(c, good, acc) == Reversed(c, good', acc)
    decreases c
  {
    if c.f.Group? { SameReading(c.f.inner, good, good', true); SameReading(c.f.inner, good, good', false); }
    if c.Link? { SameReading(c.rest, good, good', true); SameReading(c.rest, good, good', false); }
  }

  /** The verdict on real licence texts: never permissive without a permissive choice, always incompatible
      when every choice is copyleft, and for unmixed expressions both exactly. */
  lemma VerdictIsSound(c: Chain)
    ensures var v := Compatibility(Some(Print(c)));
            var permissive := SomeGood(Resolutions(c), Good(TextClass, OnlyPermissive));
            var escapable := SomeGood(Resolutions(c), Good(TextClass, NoCopyleft));
            && (v == PermissiveOption || v == PermissiveOnly ==> permissive)
            && (!escapable ==> v == Incompatible)
            && (v == PermissiveOption ==> OuterOr(c)) && (v == PermissiveOnly ==> !OuterOr(c))
            && (Unmixed(c) ==> ((v == PermissiveOption || v == PermissiveOnly) <==> permissive))
            && (Unmixed(c) ==> (v == Incompatible <==> !escapable))
  {
    VerdictMeets(c, OnlyPermissive);
    VerdictMeets(c, NoCopyleft);
    KindOfText(c);
    if Print(c) == [Atom("UNDECLARED")] || Print(c) == [Atom("UNCLASSIFIED_LICENSE_TEXT")] {
      PlaceholderIsUnknown(Print(c)[0].text);
      ClassOfAtom(Print(c)[0].text, TextClass);
    }
  }

  lemma VerdictMeets(c: Chain, bar: Bar)
    ensures Meets(ExprClass(Print(c), TextClass), bar) ==> SomeGood(Resolutions(c), Good(TextClass, bar))
    ensures Unmixed(c) && SomeGood(Resolutions(c), Good(TextClass, bar)) ==> Meets(ExprClass(Print(c), TextClass), bar)
  {
    if Meets(ExprClass(Print(c), TextClass), bar) { ClassifierIsSound(c, TextClass, bar); }
    if Unmixed(c) { UnmixedMeets(c, TextClass, bar); }
  }

  /** No small letter and no blank. */
  predicate AllCapitals(text: string) {
    forall i | 0 <= i < |text| :: !('a' <= text[i] <= 'z') && !IsSpace(text[i])
  }

  lemma NormalForm(text: string)
    requires text != "" && AllCapitals(text)
    ensures Normalize(text) == text
  {
  }

  lemma ListedFirstLetters(tok: string)
    ensures tok in COPYLEFT_TOKENS ==> |tok| >= 7 && tok[0] in "GALSBC"
    ensures tok in PERMISSIVE_TOKENS && |tok| >= 10 && tok[0] == 'U' ==> tok[2] == 'I'
  {
  }

  lemma NamesWeak(tok: string)
    ensures Contains(tok, "LGPL") ==> 'G' in tok
  {
    if Contains(tok, "LGPL") {
      var i :| 0 <= i <= |tok| && "LGPL" <= tok[i..];
      assert tok[i + 1] == tok[i..][1] == 'G';
    }
  }

  lemma UnlistedIsUnknown(tok: string)
    requires Normalize(tok) == tok && |tok| >= 10 && tok[0] == 'U' && tok[2] != 'I' && 'G' !in tok
    ensures TextClass(tok) == Unknown
  {
    ListedFirstLetters(tok);
    NamesWeak(tok);
  }

  /** The two placeholder texts would be unknown by their own text. */
  lemma PlaceholderIsUnknown(text: string)
    requires text == "UNDECLARED" || text == "UNCLASSIFIED_LICENSE_TEXT"
    ensures TextClass(text) == Unknown
  {
    PlaceholderLetters(text);
    NormalForm(text);
    UnlistedIsUnknown(text);
  }

  lemma PlaceholderLetters(text: string)
    requires text == "UNDECLARED" || text == "UNCLASSIFIED_LICENSE_TEXT"
    ensures |text| >= 10 && text[0] == 'U' && text[2] != 'I' && 'G' !in text && AllCapitals(text)
  {
    if text == "UNDECLARED" { assert AllCapitals(text); } else { assert AllCapitals(text); }
  }

  lemma ExampleClasses()
    ensures TextClass("MIT") == Permissive
    ensures TextClass("GPL-3.0") == Copyleft
  {
    NormalForm("MIT");
    ListedFirstLetters("MIT");
    assert "MIT"[0] == 'M' && !StartsWith("MIT", "GPL") && !StartsWith("MIT", "AGPL");
    NormalForm("GPL-3.0");
    assert "GPL-3.0"[..3] == "GPL";
  }

  function Gap(a: string, b: string, z: string): Chain {
    Link(Lit(a), OrOp, Link(Lit(b), AndOp, End(Lit(z))))
  }

  lemma CopyleftVerdict(c: Chain)
    requires c.Link? && ExprClass(Print(c), TextClass) == Copyleft
    ensures Compatibility(Some(Print(c))) == Incompatible
  {
    assert |Print(c)| > 1;
  }

  /** `a OR b AND z`: `a` may be chosen, yet a copyleft `z` makes the verdict incompatible. */
  lemma MixedGap(a: string, b: string, z: string)
    requires TextClass(z) == Copyleft
    ensures Compatibility(Some(Print(Gap(a, b, z)))) == Incompatible && {a} in Resolutions(Gap(a, b, z))
  {
    var good := Good(TextClass, NoCopyleft);
    assert !Reversed(Gap(a, b, z), good) by {
      assert !good(z);
      assert !Reversed(End(Lit(z)), good);
      assert !Reversed(Link(Lit(b), AndOp, End(Lit(z))), good, good(a));
    }
    ClassifierReading(Gap(a, b, z), TextClass, NoCopyleft);
    CopyleftVerdict(Gap(a, b, z));
    assert {} + {a} == {a};
    assert {a} in Cross({{}}, {{a}});
  }

  /** MIT OR Apache-2.0 AND GPL-3.0. */
  lemma MixedCounterexample()
    ensures var c := Gap("MIT", "Apache-2.0", "GPL-3.0");
            && Compatibility(Some(Print(c))) == Incompatible
            && {"MIT"} in Resolutions(c) && TextClass("MIT") == Permissive
  {
    ExampleClasses();
    MixedGap("MIT", "Apache-2.0", "GPL-3.0");
  }
}
