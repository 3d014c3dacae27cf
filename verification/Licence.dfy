/** The SPDX licence-expression classifier of the licence inventory.

    Text is a token sequence: what stands between whitespace, parentheses,
    slashes and operator words is one `Atom`.  The text a token sequence stands
    for puts one space between neighbouring tokens, so an operator word is a
    match of the splitting pattern exactly when whitespace that no earlier match
    consumed precedes it and something follows it. */
module Licence {
  import opened Common

  datatype Token = LParen | RParen | And | Or | Slash | Atom(text: string)

  datatype Class = Permissive | WeakCopyleft | Copyleft | Unknown

  // ---------------------------------------------------------------- parentheses

  function Delta(t: Token): int {
    match t
    case LParen => 1
    case RParen => -1
    case _ => 0
  }

  function Depth(ts: seq<Token>): int {
    if ts == [] then 0 else Depth(ts[..|ts| - 1]) + Delta(ts[|ts| - 1])
  }

  /** The parenthesis at `k` brings the depth back to zero before the end. */
  predicate ClosesEarly(ts: seq<Token>, k: nat) {
    k + 1 < |ts| && ts[k] == RParen && Depth(ts[..k + 1]) == 0
  }

  predicate Wrapped(ts: seq<Token>) {
    && |ts| >= 2 && ts[0] == LParen && ts[|ts| - 1] == RParen
    && forall k: nat | k < |ts| :: !ClosesEarly(ts, k)
  }

  function StripParens(ts: seq<Token>): (r: seq<Token>)
    ensures |r| <= |ts|
    ensures !Wrapped(r)
  {
    if Wrapped(ts) then StripParens(ts[1..|ts| - 1]) else ts
  }

  method ComputeStripParens(expr: seq<Token>) returns (text: seq<Token>)
    ensures text == StripParens(expr)
  {
    text := expr;
    while |text| >= 2 && text[0] == LParen && text[|text| - 1] == RParen
      invariant StripParens(text) == StripParens(expr)
      decreases |text|
    {
      var depth, wrapped, index := 0, true, 0;
      while index < |text| && wrapped
        invariant index <= |text|
        invariant wrapped ==> depth == Depth(text[..index])
        invariant wrapped ==> forall k: nat | k < index :: !ClosesEarly(text, k)
        invariant !wrapped ==> exists k: nat | k < |text| :: ClosesEarly(text, k)
      {
        assert text[..index + 1][..index] == text[..index];
        depth := depth + Delta(text[index]);
        if text[index] == RParen && depth == 0 && index != |text| - 1 {
          assert ClosesEarly(text, index);
          wrapped := false;
        }
        index := index + 1;
      }
      if !wrapped {
        return;
      }
      text := text[1..|text| - 1];
    }
  }

  // ---------------------------------------------------------------- splitting

  /** The parts of `cur + rest` at the top-level matches of `op` in `rest`.
      `open` says that whitespace not consumed by a match precedes `rest`. */
  function Scan(rest: seq<Token>, op: Token, depth: int, open: bool, cur: seq<Token>): (parts: seq<seq<Token>>)
    ensures |parts| >= 1
    ensures forall i | 0 <= i < |parts| :: |parts[i]| <= |cur| + |rest|
    ensures |parts| > 1 ==> forall i | 0 <= i < |parts| :: |parts[i]| < |cur| + |rest|
    decreases |rest|
  {
    if rest == [] then
      [cur]
    else if rest[0] == op && open && |rest| > 1 then
      if depth == 0 then
        [cur] + Scan(rest[1..], op, depth, false, [])
      else
        Scan(rest[1..], op, depth + Delta(op), false, cur + [rest[0]])
    else
      Scan(rest[1..], op, depth + Delta(rest[0]), true, cur + [rest[0]])
  }

  function SplitTopLevel(expr: seq<Token>, op: Token): (parts: Option<seq<seq<Token>>>)
    ensures parts.Some? ==> |parts.value| > 1 && forall i | 0 <= i < |parts.value| :: |parts.value[i]| < |expr|
  {
    var found := Scan(StripParens(expr), op, 0, false, []);
    if |found| == 1 then None else Some(found)
  }

  method ComputeSplitTopLevel(expr: seq<Token>, op: Token) returns (r: Option<seq<seq<Token>>>)
    requires op == And || op == Or
    ensures r == SplitTopLevel(expr, op)
  {
    var text := ComputeStripParens(expr);
    var parts: seq<seq<Token>> := [];
    var last, index, depth, open := 0, 0, 0, false;
    while index < |text|
      invariant 0 <= last <= index <= |text|
      invariant parts + Scan(text[index..], op, depth, open, text[last..index]) == Scan(text, op, 0, false, [])
    {
      ScanAt(text, op, depth, open, last, index, parts);
      if text[index] == op && open && index + 1 < |text| {
        open := false;
        if depth == 0 {
          parts := parts + [text[last..index]];
          last := index + 1;
        }
      } else {
        depth := depth + Delta(text[index]);
        open := true;
      }
      index := index + 1;
    }
    assert text[index..] == [] && text[last..index] == text[last..];
    if parts == [] {
      return None;
    }
    parts := parts + [text[last..]];
    return Some(parts);
  }

  /** One token of the scan, for text read up to `index` with the current part starting at `last`. */
  lemma ScanAt(text: seq<Token>, op: Token, depth: int, open: bool, last: nat, index: nat, parts: seq<seq<Token>>)
    requires last <= index < |text| && Delta(op) == 0
    ensures parts + Scan(text[index..], op, depth, open, text[last..index]) ==
            if text[index] == op && open && index + 1 < |text| then
              if depth == 0 then parts + [text[last..index]]
                 + Scan(text[index + 1..], op, depth, false, text[index + 1..index + 1])
              else parts + Scan(text[index + 1..], op, depth, false, text[last..index + 1])
            else parts + Scan(text[index + 1..], op, depth + Delta(text[index]), true, text[last..index + 1])
  {
    assert text[index..][1..] == text[index + 1..] && text[index..][0] == text[index];
    assert text[last..index] + [text[index]] == text[last..index + 1];
    assert text[index + 1..index + 1] == [];
    ConcatAssoc(parts, [text[last..index]], Scan(text[index + 1..], op, depth, false, []));
  }

  function Clean(ts: seq<Token>): (r: seq<Token>)
    ensures |r| == |ts|
  {
    seq(|ts|, i requires 0 <= i < |ts| => if ts[i] == Slash then Or else ts[i])
  }

  datatype Kind = AndOf(parts: seq<seq<Token>>) | OrOf(parts: seq<seq<Token>>) | AtomOf(text: seq<Token>)

  function SplitOrAnd(expr: seq<Token>): (k: Kind)
    ensures !k.AtomOf? ==> |k.parts| > 1 && forall i | 0 <= i < |k.parts| :: |k.parts[i]| < |expr|
  {
    var cleaned := Clean(expr);
    var ands := SplitTopLevel(cleaned, And);
    if ands.Some? then AndOf(ands.value) else
    var ors := SplitTopLevel(cleaned, Or);
    if ors.Some? then OrOf(ors.value) else AtomOf(StripParens(cleaned))
  }

  // ---------------------------------------------------------------- classes

  const PERMISSIVE_TOKENS: set<string> :=
    { "MIT", "APACHE-2.0", "APACHE-2.0 WITH LLVM-EXCEPTION", "BSD-2-CLAUSE", "BSD-3-CLAUSE", "ISC",
      "UNLICENSE", "ZLIB", "0BSD", "UNICODE-3.0", "CDLA-PERMISSIVE-2.0", "BSL-1.0", "MPL-2.0" }

  const COPYLEFT_TOKENS: set<string> :=
    { "GPL-2.0", "GPL-2.0-ONLY", "GPL-2.0-OR-LATER", "GPL-3.0", "GPL-3.0-ONLY", "GPL-3.0-OR-LATER",
      "AGPL-3.0", "AGPL-3.0-ONLY", "AGPL-3.0-OR-LATER", "LGPL-2.1", "LGPL-2.1-ONLY",
      "LGPL-2.1-OR-LATER", "LGPL-3.0", "SSPL-1.0", "BUSL-1.1", "COMMONS-CLAUSE" }

  function Word(t: Token): string {
    match t
    case LParen => "("
    case RParen => ")"
    case And => "AND"
    case Or => "OR"
    case Slash => "/"
    case Atom(text) => text
  }

  function Render(ts: seq<Token>): string {
    if ts == [] then "" else if |ts| == 1 then Word(ts[0]) else Word(ts[0]) + " " + Render(ts[1..])
  }

  /** Upper case with spaces turned into dashes; runs of whitespace are already single spaces. */
  function Normalize(text: string): string {
    var up := Upper(Common.Strip(text));
    seq(|up|, i requires 0 <= i < |up| => if up[i] == ' ' then '-' else up[i])
  }

  function TextClass(text: string): Class {
    var tok := Normalize(text);
    if tok in COPYLEFT_TOKENS || StartsWith(tok, "GPL") || StartsWith(tok, "AGPL") then Copyleft
    else if tok in PERMISSIVE_TOKENS || StartsWith(tok, "APACHE-2.0") then Permissive
    else if Contains(tok, "LGPL") then WeakCopyleft
    else Unknown
  }

  function OrClass(cs: seq<Class>): Class {
    if Permissive in cs then Permissive
    else if WeakCopyleft in cs && Copyleft !in cs then WeakCopyleft
    else if forall c | c in cs :: c == Copyleft then Copyleft
    else Unknown
  }

  function AndClass(cs: seq<Class>): Class {
    if Copyleft in cs || Unknown in cs then
      if Copyleft in cs then Copyleft else Unknown
    else if WeakCopyleft in cs then WeakCopyleft
    else Permissive
  }

  /** The class of an expression, for any classification `cls` of atom texts; the inventory uses `TextClass`. */
  function ExprClass(expr: seq<Token>, cls: string -> Class): Class
    decreases |expr|
  {
    match SplitOrAnd(expr)
    case AtomOf(text) => cls(Render(text))
    case OrOf(parts) => OrClass(seq(|parts|, i requires 0 <= i < |parts| => ExprClass(parts[i], cls)))
    case AndOf(parts) => AndClass(seq(|parts|, i requires 0 <= i < |parts| => ExprClass(parts[i], cls)))
  }

  datatype Verdict = CannotConclude | PermissiveOption | PermissiveOnly | NoticeRequired | Incompatible

  /** `None` and the two placeholder texts carry no concluded licence. */
  function Compatibility(spdx: Option<seq<Token>>): Verdict {
    if spdx.None? || spdx.value == [] || spdx.value == [Atom("UNDECLARED")]
       || spdx.value == [Atom("UNCLASSIFIED_LICENSE_TEXT")] then CannotConclude
    else
      match ExprClass(spdx.value, TextClass)
      case Permissive => if SplitOrAnd(spdx.value).OrOf? then PermissiveOption else PermissiveOnly
      case WeakCopyleft => NoticeRequired
      case Copyleft => Incompatible
      case Unknown => CannotConclude
  }
}
