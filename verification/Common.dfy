/** Shared result types and the few Python string operations the models need. */
module Common {
  datatype Option<+T> = None | Some(value: T)

  datatype Result<+T, +E> = Ok(value: T) | Err(error: E)

  predicate IsSpace(c: char) {
    c == ' ' || '\t' <= c <= '\r' || '\U{1C}' <= c <= '\U{1F}' || c == '\U{85}' || c == '\U{A0}'
  }

  /** What a strip takes off: whitespace, or double quotes. */
  datatype Trim = Blanks | Quotes

  predicate Drops(t: Trim, c: char) {
    match t
    case Blanks => IsSpace(c)
    case Quotes => c == '"'
  }

  function DropLeading(s: string, t: Trim): (r: string)
    ensures |r| <= |s|
    ensures r == [] || !Drops(t, r[0])
  {
    if s != [] && Drops(t, s[0]) then DropLeading(s[1..], t) else s
  }

  function DropTrailing(s: string, t: Trim): (r: string)
    ensures r <= s
    ensures r == [] || !Drops(t, r[|r| - 1])
  {
    if s != [] && Drops(t, s[|s| - 1]) then DropTrailing(s[..|s| - 1], t) else s
  }

  /** str.strip: drop the matching characters at both ends. */
  function Strip(s: string, t: Trim := Blanks): string {
    DropTrailing(DropLeading(s, t), t)
  }

  predicate StartsWith(s: string, prefix: string) {
    prefix <= s
  }

  predicate Contains(s: string, sub: string) {
    exists i | 0 <= i <= |s| :: sub <= s[i..]
  }

  function Upper(s: string): (r: string)
    ensures |r| == |s|
  {
    seq(|s|, i requires 0 <= i < |s| => if 'a' <= s[i] <= 'z' then s[i] - 'a' + 'A' else s[i])
  }

  function Lower(s: string): (r: string)
    ensures |r| == |s|
  {
    seq(|s|, i requires 0 <= i < |s| => if 'A' <= s[i] <= 'Z' then s[i] - 'A' + 'a' else s[i])
  }

  /** A full 40-digit lower-case hexadecimal commit id. */
  predicate IsCommit(s: string) {
    |s| == 40 && forall i | 0 <= i < 40 :: '0' <= s[i] <= '9' || 'a' <= s[i] <= 'f'
  }

  function Ceil(x: real): int {
    -((-x).Floor)
  }

  lemma ConcatAssoc<T>(a: seq<T>, b: seq<T>, c: seq<T>)
    ensures a + b + c == a + (b + c)
  {
  }

  lemma TakeSnoc<T>(s: seq<T>, n: nat)
    requires 0 < n <= |s|
    ensures s[..n] == s[..n - 1] + [s[n - 1]]
  {
  }

  lemma SplitHead<T>(s: seq<T>, k: nat)
    requires k < |s|
    ensures s[k..] == [s[k]] + s[k + 1..]
    ensures multiset(s[k..]) == multiset{s[k]} + multiset(s[k + 1..])
  {
    assert s[k..] == [s[k]] + s[k + 1..];
  }
}
