/** The no-loss checker for documentation merges: a fence-aware multiset of atoms, and the deficit check. */
module NoLoss {
  import opened Common

  datatype Atom = Plain(text: string) | Fence(lang: string, body: seq<string>)

  /** A document line: a fence marker with its language, or text with the atoms it yields outside a fence. */
  datatype Line = Marker(lang: string) | TextLine(raw: string, atoms: multiset<Atom>)

  // ---------------------------------------------------------------- extraction

  datatype State = State(atoms: multiset<Atom>, inFence: bool, lang: string, body: seq<string>)

  const START := State(multiset{}, false, "", [])

  /** A fence body loses its trailing newlines. */
  function TrimBlank(body: seq<string>): seq<string> {
    if body != [] && body[|body| - 1] == "" then TrimBlank(body[..|body| - 1]) else body
  }

  function FlushFence(st: State): State {
    State(st.atoms + multiset{Fence(st.lang, TrimBlank(st.body))}, false, "", [])
  }

  function Step(st: State, l: Line): State {
    match l
    case Marker(lang) => if st.inFence then FlushFence(st) else State(st.atoms, true, lang, [])
    case TextLine(raw, atoms) =>
      if st.inFence then st.(body := st.body + [raw]) else st.(atoms := st.atoms + atoms)
  }

  function Run(st: State, lines: seq<Line>): State {
    if lines == [] then st else Step(Run(st, lines[..|lines| - 1]), lines[|lines| - 1])
  }

  /** An unclosed fence counts when it holds a line. */
  function Close(st: State): multiset<Atom> {
    if st.inFence && st.body != [] then FlushFence(st).atoms else st.atoms
  }

  function Extract(lines: seq<Line>): multiset<Atom> {
    Close(Run(START, lines))
  }

  predicate EndsOutside(lines: seq<Line>) {
    !Run(START, lines).inFence
  }

  method ExtractAtoms(lines: seq<Line>) returns (atoms: multiset<Atom>)
    ensures atoms == Extract(lines)
  {
    atoms := multiset{};
    var inFence, fenceLang := false, "";
    var fenceBody: seq<string> := [];
    var i := 0;
    while i < |lines|
      invariant 0 <= i <= |lines|
      invariant State(atoms, inFence, fenceLang, fenceBody) == Run(START, lines[..i])
    {
      assert lines[..i + 1][..i] == lines[..i];
      match lines[i] {
        case Marker(lang) =>
          if !inFence {
            inFence, fenceLang, fenceBody := true, lang, [];
          } else {
            inFence := false;
            atoms := atoms + multiset{Fence(fenceLang, TrimBlank(fenceBody))};
            fenceLang, fenceBody := "", [];
          }
        case TextLine(raw, found) =>
          if inFence {
            fenceBody := fenceBody + [raw];
          } else {
            atoms := atoms + found;
          }
      }
      i := i + 1;
    }
    assert lines[..i] == lines;
    if inFence && fenceBody != [] {
      atoms := atoms + multiset{Fence(fenceLang, TrimBlank(fenceBody))};
    }
  }

  lemma {:induction false} RunConcat(st: State, a: seq<Line>, b: seq<Line>)
    ensures Run(st, a + b) == Run(Run(st, a), b)
  {
    if b == [] {
      assert a + b == a;
    } else {
      assert (a + b)[..|a + b| - 1] == a + b[..|b| - 1];
      RunConcat(st, a, b[..|b| - 1]);
    }
  }

  lemma {:induction false} RunAdds(st: State, more: multiset<Atom>, lines: seq<Line>)
    ensures var r := Run(st, lines);
            Run(st.(atoms := more + st.atoms), lines) == r.(atoms := more + r.atoms)
  {
    if lines != [] {
      RunAdds(st, more, lines[..|lines| - 1]);
    } else {
      assert Run(st, lines) == st;
    }
  }

  lemma {:induction false} OutsideIsFresh(lines: seq<Line>)
    ensures var r := Run(START, lines); !r.inFence ==> r.lang == "" && r.body == []
  {
    if lines != [] { OutsideIsFresh(lines[..|lines| - 1]); }
  }

  /** When the first text ends outside a fence, the atoms of the whole are the sum of the atoms of the parts. */
  lemma ExtractIsHomomorphism(a: seq<Line>, b: seq<Line>)
    requires EndsOutside(a)
    ensures Extract(a + b) == Extract(a) + Extract(b)
    ensures EndsOutside(b) ==> EndsOutside(a + b)
  {
    var st := Run(START, a);
    OutsideIsFresh(a);
    RunConcat(START, a, b);
    assert st == START.(atoms := st.atoms + START.atoms);
    RunAdds(START, st.atoms, b);
  }

  // ---------------------------------------------------------------- blocks and files

  type Block = seq<Line>

  predicate Closed(blocks: seq<Block>) {
    forall i | 0 <= i < |blocks| :: EndsOutside(blocks[i])
  }

  function Join(blocks: seq<Block>): seq<Line> {
    if blocks == [] then [] else Join(blocks[..|blocks| - 1]) + blocks[|blocks| - 1]
  }

  function Sum(blocks: seq<Block>, f: Block -> multiset<Atom>): multiset<Atom> {
    if blocks == [] then multiset{} else Sum(blocks[..|blocks| - 1], f) + f(blocks[|blocks| - 1])
  }

  /** A document made of fence-closed blocks has the atoms of its blocks. */
  lemma {:induction false} JoinSums(blocks: seq<Block>)
    requires Closed(blocks)
    ensures Extract(Join(blocks)) == Sum(blocks, Extract) && EndsOutside(Join(blocks))
  {
    if blocks != [] {
      JoinSums(blocks[..|blocks| - 1]);
      ExtractIsHomomorphism(Join(blocks[..|blocks| - 1]), blocks[|blocks| - 1]);
    }
  }

  lemma {:induction false} SumConcat(a: seq<Block>, b: seq<Block>, f: Block -> multiset<Atom>)
    ensures Sum(a + b, f) == Sum(a, f) + Sum(b, f)
  {
    if b == [] {
      assert a + b == a;
    } else {
      assert (a + b)[..|a + b| - 1] == a + b[..|b| - 1];
      SumConcat(a, b[..|b| - 1], f);
    }
  }

  function Without(blocks: seq<Block>, k: nat): seq<Block>
    requires k < |blocks|
  {
    blocks[..k] + blocks[k + 1..]
  }

  lemma WithoutMultiset(blocks: seq<Block>, k: nat)
    requires k < |blocks|
    ensures multiset(Without(blocks, k)) == multiset(blocks) - multiset{blocks[k]}
  {
    assert blocks == blocks[..k] + [blocks[k]] + blocks[k + 1..];
  }

  lemma {:induction false} WithoutSum(blocks: seq<Block>, k: nat, f: Block -> multiset<Atom>)
    requires k < |blocks|
    ensures Sum(blocks, f) == Sum(Without(blocks, k), f) + f(blocks[k])
  {
    var rest, last := blocks[..|blocks| - 1], blocks[|blocks| - 1];
    if k == |rest| {
      assert Without(blocks, k) == rest;
    } else {
      WithoutSum(rest, k, f);
      assert Without(blocks, k) == Without(rest, k) + [last];
      assert Without(blocks, k)[..|blocks| - 2] == Without(rest, k);
    }
  }

  /** The sum does not depend on the order of the blocks. */
  lemma {:induction false} SumPermutes(a: seq<Block>, b: seq<Block>, f: Block -> multiset<Atom>)
    requires multiset(a) == multiset(b)
    ensures Sum(a, f) == Sum(b, f)
    decreases |a|
  {
    assert |a| == |multiset(a)| == |multiset(b)| == |b|;
    if a != [] {
      assert a[0] in multiset(b);
      var k :| 0 <= k < |b| && b[k] == a[0];
      WithoutMultiset(a, 0);
      WithoutMultiset(b, k);
      WithoutSum(a, 0, f);
      WithoutSum(b, k, f);
      SumPermutes(Without(a, 0), Without(b, k), f);
    }
  }

  /** The atoms of several files, each given as its lines. */
  function LoadFiles(files: seq<seq<Line>>): multiset<Atom> {
    Sum(files, Extract)
  }

  function JoinAll(files: seq<seq<Block>>): seq<Block> {
    if files == [] then [] else JoinAll(files[..|files| - 1]) + files[|files| - 1]
  }

  function Documents(files: seq<seq<Block>>): (docs: seq<seq<Line>>)
    ensures |docs| == |files|
  {
    seq(|files|, i requires 0 <= i < |files| => Join(files[i]))
  }

  lemma {:induction false} LoadIsSum(files: seq<seq<Block>>)
    requires forall i | 0 <= i < |files| :: Closed(files[i])
    ensures LoadFiles(Documents(files)) == Sum(JoinAll(files), Extract)
  {
    if files != [] {
      var rest, last := files[..|files| - 1], files[|files| - 1];
      LoadIsSum(rest);
      JoinSums(last);
      SumConcat(JoinAll(rest), last, Extract);
      assert Documents(files)[..|files| - 1] == Documents(rest);
    }
  }

  // ---------------------------------------------------------------- the deficit check

  /** Justified credits per atom, as summed from the ledger. */
  type Ledger = map<Atom, int>

  function Credit(d: Ledger, a: Atom): int {
    if a in d then d[a] else 0
  }

  /** The pool: merged plus credits, with counts that are not positive dropped. */
  function Have(m: multiset<Atom>, d: Ledger, a: Atom): nat {
    if m[a] + Credit(d, a) > 0 then m[a] + Credit(d, a) else 0
  }

  datatype Deficit = Deficit(atom: Atom, need: nat, have: nat, missing: nat)

  predicate Passes(s: multiset<Atom>, m: multiset<Atom>, d: Ledger) {
    forall a | a in s :: s[a] <= Have(m, d, a)
  }

  method FindDeficits(s: multiset<Atom>, m: multiset<Atom>, d: Ledger, atoms: seq<Atom>) returns (out: seq<Deficit>)
    requires forall a :: a in atoms <==> a in s
    ensures out == [] <==> Passes(s, m, d)
    ensures forall x | x in out ::
              x.atom in s && x.need == s[x.atom] && x.have == Have(m, d, x.atom) && x.missing == x.need - x.have > 0
    ensures forall a | a in s && Have(m, d, a) < s[a] :: Deficit(a, s[a], Have(m, d, a), s[a] - Have(m, d, a)) in out
  {
    out := [];
    for i := 0 to |atoms|
      invariant forall x | x in out ::
                  x.atom in s && x.need == s[x.atom] && x.have == Have(m, d, x.atom) && x.missing == x.need - x.have > 0
      invariant forall j | 0 <= j < i ::
                  var a := atoms[j];
                  a in s && (Have(m, d, a) < s[a] ==> Deficit(a, s[a], Have(m, d, a), s[a] - Have(m, d, a)) in out)
    {
      var a := atoms[i];
      assert a in atoms;
      var need, have := s[a], Have(m, d, a);
      if have < need {
        out := out + [Deficit(a, need, have, need - have)];
      }
    }
    forall a | a in s && Have(m, d, a) < s[a] ensures Deficit(a, s[a], Have(m, d, a), s[a] - Have(m, d, a)) in out {
      var j :| 0 <= j < |atoms| && atoms[j] == a;
    }
    if out != [] {
      assert out[0] in out;
    }
  }

  /** The check passes exactly when merged plus credits covers every source atom. */
  lemma PassesIff(s: multiset<Atom>, m: multiset<Atom>, d: Ledger)
    ensures Passes(s, m, d) <==> forall a | a in s :: s[a] <= m[a] + Credit(d, a)
  {
  }

  /** Merged documents that rearrange the fence-closed blocks of the sources, over any files, always pass. */
  lemma RearrangedBlocksPass(sources: seq<seq<Block>>, merged: seq<seq<Block>>)
    requires forall i | 0 <= i < |sources| :: Closed(sources[i])
    requires forall i | 0 <= i < |merged| :: Closed(merged[i])
    requires multiset(JoinAll(sources)) == multiset(JoinAll(merged))
    ensures Passes(LoadFiles(Documents(sources)), LoadFiles(Documents(merged)), map[])
  {
    LoadIsSum(sources);
    LoadIsSum(merged);
    SumPermutes(JoinAll(sources), JoinAll(merged), Extract);
  }

  function Merge(d: Ledger, e: Ledger): Ledger {
    map a | a in d.Keys + e.Keys :: Credit(d, a) + Credit(e, a)
  }

  lemma MergeCredits(d: Ledger, e: Ledger, a: Atom)
    ensures Credit(Merge(d, e), a) == Credit(d, a) + Credit(e, a)
  {
  }

  /** Two successive merges compose, whatever the sources and the first ledger, if and only if the second
      merge and its ledger cover the intermediate documents on every atom, also on those they lack. */
  lemma MergesComposeIff(m1: multiset<Atom>, m2: multiset<Atom>, d2: Ledger)
    ensures (forall s: multiset<Atom>, d1: Ledger | Passes(s, m1, d1) :: Passes(s, m2, Merge(d1, d2))) <==>
            (forall a :: m1[a] <= m2[a] + Credit(d2, a))
  {
    if forall a :: m1[a] <= m2[a] + Credit(d2, a) {
      forall s: multiset<Atom>, d1: Ledger | Passes(s, m1, d1) ensures Passes(s, m2, Merge(d1, d2)) {
        PassesIff(s, m1, d1);
        forall a | a in s ensures s[a] <= m2[a] + Credit(Merge(d1, d2), a) { MergeCredits(d1, d2, a); }
        PassesIff(s, m2, Merge(d1, d2));
      }
    }
    if forall s: multiset<Atom>, d1: Ledger | Passes(s, m1, d1) :: Passes(s, m2, Merge(d1, d2)) {
      forall a ensures m1[a] <= m2[a] + Credit(d2, a) {
        var s, d1 := multiset{}[a := m1[a] + 1], map[a := 1];
        assert Passes(s, m1, d1);
        assert Passes(s, m2, Merge(d1, d2));
        assert a in s;
        MergeCredits(d1, d2, a);
      }
    }
  }

  /** A negative credit on an atom the intermediate documents lack: both merges pass, the two as one do not. */
  lemma NegativeCreditBreaksComposition(a: Atom)
    ensures var s, m1, m2, d1, d2 := multiset{a}, multiset{}, multiset{}, map[a := 1], map[a := -1];
            Passes(s, m1, d1) && Passes(m1, m2, d2) && !Passes(s, m2, Merge(d1, d2))
  {
    MergeCredits(map[a := 1], map[a := -1], a);
    assert a in multiset{a};
  }

  /** So two passing merges with a non-negative second ledger pass as one with the ledgers added. */
  lemma MergesCompose(s: multiset<Atom>, m1: multiset<Atom>, m2: multiset<Atom>, d1: Ledger, d2: Ledger)
    requires Passes(s, m1, d1) && Passes(m1, m2, d2)
    requires forall a | a in d2 :: d2[a] >= 0
    ensures Passes(s, m2, Merge(d1, d2))
  {
    forall a ensures m1[a] <= m2[a] + Credit(d2, a) {
      if a in m1 { assert m1[a] <= Have(m2, d2, a); }
    }
    MergesComposeIff(m1, m2, d2);
  }

  // ---------------------------------------------------------------- the ledger

  datatype LedgerEntry = LedgerEntry(atom: Atom, count: int, reason: string)

  /** An item of the flat form: a credit, or a key that starts with an underscore and is passed over. */
  datatype FlatItem = Comment | Counts(atom: Atom, count: int)

  /** A ledger file: none, a list of justified entries, a flat map of counts, or JSON of another shape. */
  datatype LedgerFile = NoLedger | Entries(entries: seq<LedgerEntry>) | Flat(items: seq<FlatItem>) | OtherShape

  function Grant(item: FlatItem, a: Atom): int {
    if item.Counts? && item.atom == a then item.count else 0
  }

  function Total(items: seq<FlatItem>, a: Atom): int {
    if items == [] then 0 else Total(items[..|items| - 1], a) + Grant(items[|items| - 1], a)
  }

  /** The entries as flat items. */
  function Items(entries: seq<LedgerEntry>): (items: seq<FlatItem>)
    ensures |items| == |entries|
  {
    seq(|entries|, i requires 0 <= i < |entries| => Counts(entries[i].atom, entries[i].count))
  }

  /** The credit a ledger file grants an atom. */
  function Granted(file: LedgerFile, a: Atom): int {
    match file
    case Entries(entries) => Total(Items(entries), a)
    case Flat(items) => Total(items, a)
    case _ => 0
  }

  /** Every entry states a reason. */
  predicate Justified(entries: seq<LedgerEntry>) {
    forall i | 0 <= i < |entries| :: Strip(entries[i].reason) != ""
  }

  /** The counts for the same atom add up.  Refused are an entry without a reason and JSON of another shape;
      the flat form asks for no reason at all. */
  method LoadLedger(file: LedgerFile) returns (r: Option<Ledger>)
    ensures r.Some? <==> !file.OtherShape? && (file.Entries? ==> Justified(file.entries))
    ensures r.Some? ==> forall a :: Credit(r.value, a) == Granted(file, a)
  {
    match file
    case NoLedger => return Some(map[]);
    case Entries(entries) => r := LoadEntries(entries);
    case Flat(items) =>
      var out := LoadFlat(items);
      return Some(out);
    case OtherShape => return None;
  }

  /** One more item moves one atom's credit by its count. */
  lemma CreditItem(out: Ledger, items: seq<FlatItem>, i: nat, a: Atom)
    requires i < |items| && Credit(out, a) == Total(items[..i], a)
    ensures Total(items[..i + 1], a) == Total(items[..i], a) + Grant(items[i], a)
    ensures items[i].Counts? ==>
              Credit(out[items[i].atom := Credit(out, items[i].atom) + items[i].count], a) == Total(items[..i + 1], a)
  {
    assert items[..i + 1][..i] == items[..i];
  }

  method LoadEntries(entries: seq<LedgerEntry>) returns (r: Option<Ledger>)
    ensures r.Some? <==> Justified(entries)
    ensures r.Some? ==> forall a :: Credit(r.value, a) == Total(Items(entries), a)
  {
    var out: Ledger := map[];
    ghost var items := Items(entries);
    for i := 0 to |entries|
      invariant forall j | 0 <= j < i :: Strip(entries[j].reason) != ""
      invariant forall a :: Credit(out, a) == Total(items[..i], a)
    {
      if Strip(entries[i].reason) == "" {
        return None;
      }
      ghost var before := out;
      out := out[entries[i].atom := Credit(out, entries[i].atom) + entries[i].count];
      forall a ensures Credit(out, a) == Total(items[..i + 1], a) {
        CreditItem(before, items, i, a);
      }
    }
    assert items[..|items|] == items;
    return Some(out);
  }

  method LoadFlat(items: seq<FlatItem>) returns (out: Ledger)
    ensures forall a :: Credit(out, a) == Total(items, a)
  {
    out := map[];
    for i := 0 to |items|
      invariant forall a :: Credit(out, a) == Total(items[..i], a)
    {
      ghost var before := out;
      if items[i].Counts? {
        out := out[items[i].atom := Credit(out, items[i].atom) + items[i].count];
      }
      forall a ensures Credit(out, a) == Total(items[..i + 1], a) {
        CreditItem(before, items, i, a);
      }
    }
    assert items[..|items|] == items;
  }

  // ---------------------------------------------------------------- what a text yields

  predicate AllText(lines: seq<Line>) {
    forall i | 0 <= i < |lines| :: lines[i].TextLine?
  }

  function Raws(lines: seq<Line>): (r: seq<string>)
    requires AllText(lines)
    ensures |r| == |lines|
  {
    seq(|lines|, i requires 0 <= i < |lines| => lines[i].raw)
  }

  /** Trimming takes off exactly the blank lines at the end. */
  lemma {:induction false} TrimMeaning(body: seq<string>)
    ensures var r := TrimBlank(body);
            && r <= body && (r == [] || r[|r| - 1] != "")
            && forall i | |r| <= i < |body| :: body[i] == ""
  {
    if body != [] && body[|body| - 1] == "" { TrimMeaning(body[..|body| - 1]); }
  }

  /** Outside a fence a line yields its own atoms. */
  lemma TextYields(raw: string, atoms: multiset<Atom>)
    ensures Extract([TextLine(raw, atoms)]) == atoms && EndsOutside([TextLine(raw, atoms)])
  {
    var line := TextLine(raw, atoms);
    assert [line][..0] == [] && Run(START, [line]) == Step(START, line);
  }

  lemma {:induction false} InsideFence(lang: string, body: seq<Line>)
    requires AllText(body)
    ensures Run(START, [Marker(lang)] + body) == State(multiset{}, true, lang, Raws(body))
  {
    var lines := [Marker(lang)] + body;
    if body == [] {
      assert lines == [Marker(lang)] && lines[..0] == [];
      assert Run(START, lines) == Step(START, Marker(lang));
    } else {
      var n := |body| - 1;
      assert lines[..|lines| - 1] == [Marker(lang)] + body[..n];
      InsideFence(lang, body[..n]);
      assert Raws(body) == Raws(body[..n]) + [body[n].raw];
    }
  }

  /** A fenced block yields one atom, its language and its lines without the blank ones at its end, whatever
      the lines would yield outside; an unclosed one yields it exactly when it holds a line. */
  lemma FenceYields(lang: string, body: seq<Line>, close: string)
    requires AllText(body)
    ensures var fence := multiset{Fence(lang, TrimBlank(Raws(body)))};
            var whole := [Marker(lang)] + body + [Marker(close)];
            && Extract(whole) == fence && EndsOutside(whole)
            && Extract([Marker(lang)] + body) == if body == [] then multiset{} else fence
  {
    InsideFence(lang, body);
    var inside := [Marker(lang)] + body;
    assert (inside + [Marker(close)])[..|inside|] == inside;
  }

  // ---------------------------------------------------------------- what is dropped is missed

  lemma EmptySum(a: multiset<Atom>, b: multiset<Atom>)
    ensures a + b == multiset{} <==> a == multiset{} && b == multiset{}
  {
    if a + b == multiset{} {
      forall x ensures x !in a && x !in b { assert x !in a + b; }
    }
  }

  predicate NoAtoms(blocks: seq<Block>) {
    forall i | 0 <= i < |blocks| :: Extract(blocks[i]) == multiset{}
  }

  lemma NoAtomsSnoc(blocks: seq<Block>)
    requires blocks != []
    ensures NoAtoms(blocks) <==> NoAtoms(blocks[..|blocks| - 1]) && Extract(blocks[|blocks| - 1]) == multiset{}
  {
  }

  lemma {:induction false} NoneYields(blocks: seq<Block>)
    ensures Sum(blocks, Extract) == multiset{} <==> NoAtoms(blocks)
  {
    if blocks != [] {
      var rest, last := blocks[..|blocks| - 1], blocks[|blocks| - 1];
      NoneYields(rest);
      NoAtomsSnoc(blocks);
      EmptySum(Sum(rest, Extract), Extract(last));
    }
  }

  /** Merged documents made of the sources' fence-closed blocks but for some dropped ones pass without a ledger
      if and only if no dropped block holds an atom. */
  lemma DroppedBlocksPassIff(sources: seq<seq<Block>>, merged: seq<seq<Block>>, dropped: seq<Block>)
    requires forall i | 0 <= i < |sources| :: Closed(sources[i])
    requires forall i | 0 <= i < |merged| :: Closed(merged[i])
    requires multiset(JoinAll(sources)) == multiset(JoinAll(merged) + dropped)
    ensures Passes(LoadFiles(Documents(sources)), LoadFiles(Documents(merged)), map[]) <==>
            NoAtoms(dropped)
  {
    LoadIsSum(sources);
    LoadIsSum(merged);
    SumPermutes(JoinAll(sources), JoinAll(merged) + dropped, Extract);
    SumConcat(JoinAll(merged), dropped, Extract);
    NoneYields(dropped);
    var s, m, lost := LoadFiles(Documents(sources)), LoadFiles(Documents(merged)), Sum(dropped, Extract);
    assert s == m + lost;
    if lost != multiset{} {
      var a :| a in lost;
      assert a in s && s[a] > m[a];
    }
  }

  /** An atom of the sources that merged documents of any kind lack is reported. */
  lemma LostAtomFails(sources: seq<seq<Block>>, merged: multiset<Atom>, block: Block, a: Atom)
    requires forall i | 0 <= i < |sources| :: Closed(sources[i])
    requires block in JoinAll(sources) && a in Extract(block) && a !in merged
    ensures !Passes(LoadFiles(Documents(sources)), merged, map[])
  {
    LoadIsSum(sources);
    var k :| 0 <= k < |JoinAll(sources)| && JoinAll(sources)[k] == block;
    WithoutSum(JoinAll(sources), k, Extract);
    assert a in LoadFiles(Documents(sources));
  }
}
