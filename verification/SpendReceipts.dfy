/** Spend receipts: the refusal rules, fresh receipts, and the re-validation of retained ones. */
module SpendReceipts {
  import opened Common
  import opened SpendMoney

  datatype Refusal =
    | TeardownUnverified | NeverReady | LifetimeExceeded | CapExceeded | MutableImage | OrphansListed
    | NotASpendReceipt | WithdrawnWithoutReason | FieldsUnreadable

  /** A reason field: missing, one text, or a list of texts. */
  datatype Reason = Absent | One(text: string) | Many(texts: seq<string>)

  /** A stored receipt; a numeric field is `None` when it is missing or cannot be read as a number, and the
      orphan field is `None` when it holds something that cannot be listed, such as a number. */
  datatype Stored = Stored(
    isSpendReceipt: bool, validity: string, withdrawnReason: Reason, supersededReason: Reason,
    costPerHr: Option<real>, capUsd: Option<real>, seconds: Option<real>,
    image: string, teardownVerified: bool, ready: bool, orphans: Option<seq<string>>)

  function When(b: bool, r: Refusal): seq<Refusal> {
    if b then [r] else []
  }

  predicate Pinned(image: string) {
    Contains(image, "@sha256:")
  }

  function RuleRefusals(image: string, costPerHr: real, capUsd: real, seconds: real, spent: real,
                        teardownVerified: bool, ready: bool, orphans: seq<string>): Result<seq<Refusal>, MoneyError>
  {
    var allowed := BudgetSeconds(costPerHr, capUsd);
    if allowed.Err? then Err(allowed.error) else
    Ok(When(!teardownVerified, TeardownUnverified)
       + When(!ready, NeverReady)
       + When(seconds > allowed.value as real, LifetimeExceeded)
       + When(spent > capUsd, CapExceeded)
       + When(!Pinned(image), MutableImage)
       + When(orphans != [], OrphansListed))
  }

  // ---------------------------------------------------------------- fresh receipts

  datatype Args = Args(startedAt: real, stoppedAt: real, costPerHr: real, capUsd: real,
                       image: string, teardownVerified: bool, ready: bool, orphans: seq<string>)

  datatype Receipt = Receipt(stored: Stored, budgetSecs: int, spendUsd: real, refusals: seq<Refusal>, admissible: bool)

  function BuildReceipt(a: Args): Result<Receipt, MoneyError> {
    var seconds := a.stoppedAt - a.startedAt;
    if seconds < 0.0 then Err(NegativeLifetime) else
    var allowed := BudgetSeconds(a.costPerHr, a.capUsd);
    if allowed.Err? then Err(allowed.error) else
    var spent := SpendUsd(a.costPerHr, seconds);
    if spent.Err? then Err(spent.error) else
    var refusals := RuleRefusals(a.image, a.costPerHr, a.capUsd, seconds, spent.value, a.teardownVerified, a.ready,
                                 a.orphans);
    if refusals.Err? then Err(refusals.error) else
    Ok(Receipt(
         Stored(true, "", Absent, Absent, Some(a.costPerHr), Some(a.capUsd), Some(seconds),
                a.image, a.teardownVerified, a.ready, Some(a.orphans)),
         allowed.value, spent.value, refusals.value, refusals.value == []))
  }

  // ---------------------------------------------------------------- re-validation

  predicate Retired(r: Stored) {
    Upper(r.validity) in {"WITHDRAWN", "INVALIDATED", "INVALIDATED_PENDING_RERUN"}
  }

  predicate Truthy(r: Reason) {
    match r
    case Absent => false
    case One(text) => text != ""
    case Many(texts) => texts != []
  }

  function JoinNonBlank(texts: seq<string>): string {
    if texts == [] then ""
    else
      var rest := JoinNonBlank(texts[1..]);
      if Strip(texts[0]) == "" then rest else if rest == "" then texts[0] else texts[0] + "; " + rest
  }

  function ReasonText(r: Reason): string {
    match r
    case Absent => ""
    case One(text) => Strip(text)
    case Many(texts) => Strip(JoinNonBlank(texts))
  }

  /** The stated reason of a withdrawn receipt; `None` when it is not withdrawn or states none. */
  function Withdrawal(r: Stored): Option<string> {
    if !Retired(r) then None else
    var reason := ReasonText(if Truthy(r.withdrawnReason) then r.withdrawnReason else r.supersededReason);
    if reason == "" then None else Some(reason)
  }

  /** What re-validation raises instead of logging a failure. */
  datatype Raised = BadMoney(error: MoneyError) | OrphansNotListable | NotAnObject | NotUtf8

  /** Listing the orphans, and the rate and cap checks of the rules, raise past this function. */
  function Revalidate(r: Stored): Result<seq<Refusal>, Raised> {
    if !r.isSpendReceipt then Ok([NotASpendReceipt])
    else if Retired(r) then Ok(When(Withdrawal(r).None?, WithdrawnWithoutReason))
    else if r.costPerHr.None? || r.capUsd.None? || r.seconds.None? then Ok([FieldsUnreadable])
    else
      var spent := SpendUsd(r.costPerHr.value, r.seconds.value);
      if spent.Err? then Ok([FieldsUnreadable])
      else if r.orphans.None? then Err(OrphansNotListable)
      else
        var refusals := RuleRefusals(r.image, r.costPerHr.value, r.capUsd.value, r.seconds.value, spent.value,
                                     r.teardownVerified, r.ready, r.orphans.value);
        if refusals.Err? then Err(BadMoney(refusals.error)) else Ok(refusals.value)
  }

  /** Re-validating a fresh receipt gives exactly the refusals stored in it; it is not withdrawn. */
  lemma FreshRevalidates(a: Args)
    requires BuildReceipt(a).Ok?
    ensures var receipt := BuildReceipt(a).value;
            && Revalidate(receipt.stored) == Ok(receipt.refusals)
            && Withdrawal(receipt.stored) == None
            && (receipt.admissible <==> OutcomeOf(Readable(receipt.stored)) == Ok(Pass))
  {
    assert |Upper("")| == 0;
  }

  /** What a clean receipt is, rule by rule. */
  ghost predicate Clean(r: Stored) {
    && r.isSpendReceipt && r.costPerHr.Some? && r.capUsd.Some? && r.seconds.Some?
    && r.costPerHr.value > 0.0 && r.capUsd.value >= MIN_CAP_USD && r.seconds.value >= 0.0
    && r.seconds.value <= BudgetSeconds(r.costPerHr.value, r.capUsd.value).value as real
    && r.teardownVerified && r.ready && Pinned(r.image) && r.orphans == Some([])
  }

  lemma NoneWhen(a: bool, b: bool, c: bool, d: bool, e: bool, f: bool, r: seq<Refusal>)
    requires r == When(a, TeardownUnverified) + When(b, NeverReady) + When(c, LifetimeExceeded)
                  + When(d, CapExceeded) + When(e, MutableImage) + When(f, OrphansListed)
    ensures r == [] <==> !(a || b || c || d || e || f)
  {
    assert |r| == |When(a, TeardownUnverified)| + |When(b, NeverReady)| + |When(c, LifetimeExceeded)|
                  + |When(d, CapExceeded)| + |When(e, MutableImage)| + |When(f, OrphansListed)|;
  }

  lemma HeadroomIsTime(costPerHr: real, capUsd: real)
    requires costPerHr > 0.0 && capUsd >= MIN_CAP_USD
    ensures OverrunUsd(capUsd) / costPerHr * 3600.0 >= 0.0
  {
    assert OverrunUsd(capUsd) > 0.0;
    assert OverrunUsd(capUsd) / costPerHr >= 0.0;
  }

  lemma WithinBudgetWithinCap(costPerHr: real, capUsd: real, seconds: real)
    requires BudgetSeconds(costPerHr, capUsd).Ok? && 0.0 <= seconds <= BudgetSeconds(costPerHr, capUsd).value as real
    ensures SpendUsd(costPerHr, seconds).value <= capUsd
  {
    HeadroomIsTime(costPerHr, capUsd);
    BudgetHoldsCap(costPerHr, capUsd, seconds);
  }

  /** A standing receipt passes exactly when it is clean: within the lifetime budget the spend rule never fires. */
  lemma PassIffClean(r: Stored)
    requires !Retired(r)
    ensures Revalidate(r) == Ok([]) <==> Clean(r)
  {
    if r.isSpendReceipt && r.costPerHr.Some? && r.capUsd.Some? && r.seconds.Some? && r.seconds.value >= 0.0
       && r.orphans.Some? {
      RulesIffClean(r, r.costPerHr.value, r.capUsd.value, r.seconds.value, r.orphans.value);
    }
  }

  lemma RulesIffClean(r: Stored, cost: real, cap: real, seconds: real, orphans: seq<string>)
    requires seconds >= 0.0
    ensures RuleRefusals(r.image, cost, cap, seconds, SpendUsd(cost, seconds).value, r.teardownVerified, r.ready,
                         orphans)
              == Ok([]) <==>
            && cost > 0.0 && cap >= MIN_CAP_USD && seconds <= BudgetSeconds(cost, cap).value as real
            && r.teardownVerified && r.ready && Pinned(r.image) && orphans == []
  {
    var allowed, spent := BudgetSeconds(cost, cap), SpendUsd(cost, seconds).value;
    if allowed.Ok? {
      var late := seconds > allowed.value as real;
      if !late { WithinBudgetWithinCap(cost, cap, seconds); }
      NoneWhen(!r.teardownVerified, !r.ready, late, spent > cap, !Pinned(r.image), orphans != [],
               RuleRefusals(r.image, cost, cap, seconds, spent, r.teardownVerified, r.ready, orphans).value);
    }
  }

  // ---------------------------------------------------------------- the directory walk

  /** A retained file: not readable as JSON, not UTF-8 text, JSON but no object, or a stored receipt. */
  datatype File = Unreadable | NotText | NotObject | Readable(receipt: Stored)
  datatype Outcome = Pass | Withdrawn(reason: string) | Fail(refusals: seq<Refusal>)

  function OutcomeOf(f: File): Result<Outcome, Raised> {
    match f
    case Unreadable => Ok(Fail([FieldsUnreadable]))
    case NotText => Err(NotUtf8)
    case NotObject => Err(NotAnObject)
    case Readable(receipt) =>
      var refusals := Revalidate(receipt);
      if refusals.Err? then Err(refusals.error)
      else if refusals.value != [] then Ok(Fail(refusals.value))
      else if Withdrawal(receipt).Some? then Ok(Withdrawn(Withdrawal(receipt).value))
      else Ok(Pass)
  }

  function Failures(log: seq<Outcome>): nat {
    if log == [] then 0 else Failures(log[..|log| - 1]) + if log[|log| - 1].Fail? then 1 else 0
  }

  function Withdrawals(log: seq<Outcome>): nat {
    if log == [] then 0 else Withdrawals(log[..|log| - 1]) + if log[|log| - 1].Withdrawn? then 1 else 0
  }

  function Passes(log: seq<Outcome>): nat {
    if log == [] then 0 else Passes(log[..|log| - 1]) + if log[|log| - 1].Pass? then 1 else 0
  }

  datatype Walk = Walk(log: seq<Outcome>, exitCode: int, passing: int)

  lemma CountsSnoc(log: seq<Outcome>, o: Outcome)
    ensures Failures(log + [o]) == Failures(log) + if o.Fail? then 1 else 0
    ensures Withdrawals(log + [o]) == Withdrawals(log) + if o.Withdrawn? then 1 else 0
  {
    assert (log + [o])[..|log|] == log;
  }

  /** The walk stops at the first raised error; otherwise it logs one outcome per receipt, in order,
      and exits 0 exactly when none failed, reporting as passing what neither failed nor was withdrawn. */
  method RevalidateAll(files: seq<File>) returns (r: Result<Walk, Raised>)
    ensures r.Err? <==> exists i | 0 <= i < |files| :: OutcomeOf(files[i]).Err?
    ensures r.Ok? ==>
      && |r.value.log| == |files|
      && (forall i | 0 <= i < |files| :: OutcomeOf(files[i]) == Ok(r.value.log[i]))
      && r.value.exitCode == (if Failures(r.value.log) > 0 then 1 else 0)
      && (r.value.exitCode == 0 ==> r.value.passing == Passes(r.value.log))
  {
    var failed, withdrawn := 0, 0;
    var log: seq<Outcome> := [];
    for i := 0 to |files|
      invariant |log| == i
      invariant forall j | 0 <= j < i :: OutcomeOf(files[j]) == Ok(log[j])
      invariant failed == Failures(log) && withdrawn == Withdrawals(log)
    {
      var judged := Judge(files[i]);
      if judged.Err? {
        return Err(judged.error);
      }
      CountsSnoc(log, judged.value);
      if judged.value.Fail? {
        failed := failed + 1;
      } else if judged.value.Withdrawn? {
        withdrawn := withdrawn + 1;
      }
      log := log + [judged.value];
    }
    OutcomesPartition(log);
    return Ok(Walk(log, if failed > 0 then 1 else 0, |files| - withdrawn));
  }

  /** One file of the walk. */
  method Judge(file: File) returns (r: Result<Outcome, Raised>)
    ensures r == OutcomeOf(file)
  {
    match file {
      case Unreadable =>
        return Ok(Fail([FieldsUnreadable]));
      case NotText =>
        return Err(NotUtf8);
      case NotObject =>
        return Err(NotAnObject);
      case Readable(receipt) =>
        var refusals := Revalidate(receipt);
        if refusals.Err? {
          return Err(refusals.error);
        }
        if refusals.value != [] {
          return Ok(Fail(refusals.value));
        }
        var withdrawal := Withdrawal(receipt);
        return if withdrawal.Some? then Ok(Withdrawn(withdrawal.value)) else Ok(Pass);
    }
  }

  lemma {:induction false} OutcomesPartition(log: seq<Outcome>)
    ensures Failures(log) + Withdrawals(log) + Passes(log) == |log|
    ensures Failures(log) == 0 <==> forall i | 0 <= i < |log| :: !log[i].Fail?
  {
    if log != [] { OutcomesPartition(log[..|log| - 1]); }
  }

  /** A receipt passes only when it stands and is clean, and counts as withdrawn only with a stated reason. */
  lemma OutcomeMeaning(r: Stored)
    ensures OutcomeOf(Readable(r)) == Ok(Pass) <==> !Retired(r) && Clean(r)
    ensures OutcomeOf(Readable(r)).Ok? && OutcomeOf(Readable(r)).value.Withdrawn? <==>
            r.isSpendReceipt && Retired(r) && Withdrawal(r).Some?
    ensures Withdrawal(r).Some? ==> Withdrawal(r).value != ""
  {
    if !Retired(r) { PassIffClean(r); }
  }

  /** A standing spend receipt with a readable rate, cap and non-negative lifetime. */
  predicate Judged(r: Stored) {
    && r.isSpendReceipt && !Retired(r) && r.costPerHr.Some? && r.capUsd.Some? && r.seconds.Some?
    && r.seconds.value >= 0.0
  }

  /** Exactly what raises: a file that is not UTF-8 or is JSON but no object, and a receipt that gets as far as
      the rules with orphans that cannot be listed, a rate that is not positive, or a cap below the minimum. */
  lemma RaisesIff(f: File)
    ensures OutcomeOf(f).Err? <==>
            || f.NotText? || f.NotObject?
            || (f.Readable? && Judged(f.receipt) &&
                (f.receipt.orphans.None? || f.receipt.costPerHr.value <= 0.0 || f.receipt.capUsd.value < MIN_CAP_USD))
  {
  }

  /** A stored receipt with no hourly rate, and one whose orphan field is a number: readable, standing, and
      clean in every other respect. */
  const FREE_POD := Stored(true, "", Absent, Absent, Some(0.0), Some(2.0), Some(60.0), "vllm@sha256:0", true, true,
                           Some([]))
  const NUMBERED_ORPHANS := FREE_POD.(costPerHr := Some(1.0), orphans := None)

  lemma StandsWithoutValidity(r: Stored)
    requires r.validity == ""
    ensures !Retired(r)
  {
    assert |Upper("")| == 0;
  }

  /** None of the four is logged as a failure: re-validating it raises, and no walk over it has a verdict. */
  lemma RaisingFiles(f: File, files: seq<File>)
    requires f == Readable(FREE_POD) || f == Readable(NUMBERED_ORPHANS) || f == NotObject || f == NotText
    requires f in files
    ensures OutcomeOf(f).Err? && exists i | 0 <= i < |files| :: OutcomeOf(files[i]).Err?
  {
    StandsWithoutValidity(FREE_POD);
    StandsWithoutValidity(NUMBERED_ORPHANS);
    RaisesIff(f);
    var i :| 0 <= i < |files| && files[i] == f;
  }

  /** Exit 0 means every retained receipt is clean, or withdrawn with a reason. */
  lemma ExitZeroMeaning(files: seq<File>, log: seq<Outcome>)
    requires |log| == |files| && forall i | 0 <= i < |files| :: OutcomeOf(files[i]) == Ok(log[i])
    ensures Failures(log) == 0 <==>
            forall i | 0 <= i < |files| ::
              && files[i].Readable?
              && var r := files[i].receipt;
                 if Retired(r) then r.isSpendReceipt && Withdrawal(r).Some? else Clean(r)
  {
    OutcomesPartition(log);
    forall i | 0 <= i < |files|
      ensures !log[i].Fail? <==>
              && files[i].Readable?
              && var r := files[i].receipt;
                 if Retired(r) then r.isSpendReceipt && Withdrawal(r).Some? else Clean(r)
    {
      if files[i].Readable? { OutcomeMeaning(files[i].receipt); }
    }
  }

  // ---------------------------------------------------------------- what a refusal says

  /** One more rule adds its refusal exactly when it is broken. */
  lemma OneMoreRule(rest: seq<Refusal>, broken: bool, rule: Refusal, x: Refusal)
    ensures x in rest + When(broken, rule) <==> x in rest || (broken && x == rule)
  {
  }

  lemma WhenMember(a: bool, b: bool, c: bool, d: bool, e: bool, f: bool, x: Refusal)
    ensures x in When(a, TeardownUnverified) + When(b, NeverReady) + When(c, LifetimeExceeded)
                 + When(d, CapExceeded) + When(e, MutableImage) + When(f, OrphansListed) <==>
            || (a && x == TeardownUnverified) || (b && x == NeverReady) || (c && x == LifetimeExceeded)
            || (d && x == CapExceeded) || (e && x == MutableImage) || (f && x == OrphansListed)
  {
    var one := When(a, TeardownUnverified);
    var two := one + When(b, NeverReady);
    var three := two + When(c, LifetimeExceeded);
    var four := three + When(d, CapExceeded);
    OneMoreRule(one, b, NeverReady, x);
    OneMoreRule(two, c, LifetimeExceeded, x);
    OneMoreRule(three, d, CapExceeded, x);
    OneMoreRule(four, e, MutableImage, x);
    OneMoreRule(four + When(e, MutableImage), f, OrphansListed, x);
  }

  /** The rule behind a refusal is broken; the spend rule when the cost is more than the whole cents of the cap. */
  ghost predicate Breaks(r: Stored, x: Refusal)
    requires Judged(r) && r.orphans.Some? && BudgetSeconds(r.costPerHr.value, r.capUsd.value).Ok?
  {
    var cost, cap, seconds := r.costPerHr.value, r.capUsd.value, r.seconds.value;
    match x
    case TeardownUnverified => !r.teardownVerified
    case NeverReady => !r.ready
    case LifetimeExceeded => seconds > BudgetSeconds(cost, cap).value as real
    case CapExceeded => Cost(cost, seconds) > (cap * 100.0).Floor as real / 100.0
    case MutableImage => !Pinned(r.image)
    case OrphansListed => r.orphans.value != []
    case _ => false
  }

  /** A refusal stands exactly when its rule is broken. */
  lemma RefusalMeaning(r: Stored, x: Refusal)
    requires Judged(r) && r.orphans.Some? && BudgetSeconds(r.costPerHr.value, r.capUsd.value).Ok?
    ensures Revalidate(r).Ok? && (x in Revalidate(r).value <==> Breaks(r, x))
  {
    var cost, cap, seconds := r.costPerHr.value, r.capUsd.value, r.seconds.value;
    SpendWithinCap(cost, seconds, cap);
    WhenMember(!r.teardownVerified, !r.ready, seconds > BudgetSeconds(cost, cap).value as real,
               SpendUsd(cost, seconds).value > cap, !Pinned(r.image), r.orphans.value != [], x);
  }

  /** The refusals that come before any rule: another kind of file, a withdrawal that states no reason, and
      numbers that are missing or a lifetime below zero. */
  lemma EarlyRefusals(r: Stored)
    ensures Revalidate(r) == Ok([NotASpendReceipt]) <==> !r.isSpendReceipt
    ensures Revalidate(r) == Ok([WithdrawnWithoutReason]) <==> r.isSpendReceipt && Retired(r) && Withdrawal(r).None?
    ensures Revalidate(r) == Ok([FieldsUnreadable]) <==>
            r.isSpendReceipt && !Retired(r) &&
            (r.costPerHr.None? || r.capUsd.None? || r.seconds.None? || r.seconds.value < 0.0)
  {
    if Judged(r) && r.orphans.Some? && BudgetSeconds(r.costPerHr.value, r.capUsd.value).Ok? {
      RefusalMeaning(r, NotASpendReceipt);
      RefusalMeaning(r, WithdrawnWithoutReason);
      RefusalMeaning(r, FieldsUnreadable);
      assert NotASpendReceipt in [NotASpendReceipt] && FieldsUnreadable in [FieldsUnreadable];
      assert WithdrawnWithoutReason in [WithdrawnWithoutReason];
    }
  }

  /** A receipt is built exactly for a pod that did not stop before it started, with a positive rate and a cap of
      at least the minimum; it stores what it was given, its lifetime, the budget, and a spend that covers the
      cost, and it is admissible exactly when clean. */
  lemma ReceiptMeaning(a: Args)
    ensures BuildReceipt(a).Ok? <==> a.startedAt <= a.stoppedAt && a.costPerHr > 0.0 && a.capUsd >= MIN_CAP_USD
    ensures BuildReceipt(a).Ok? ==>
              var receipt := BuildReceipt(a).value;
              var r, life := receipt.stored, a.stoppedAt - a.startedAt;
              && r.seconds == Some(life) && r.costPerHr == Some(a.costPerHr) && r.capUsd == Some(a.capUsd)
              && r.image == a.image && r.teardownVerified == a.teardownVerified && r.ready == a.ready
              && r.orphans == Some(a.orphans)
              && Cost(a.costPerHr, life) <= receipt.spendUsd < Cost(a.costPerHr, life) + 0.01
              && BudgetSeconds(a.costPerHr, a.capUsd) == Ok(receipt.budgetSecs)
              && (receipt.admissible <==> Clean(r))
  {
    if BuildReceipt(a).Ok? {
      var receipt := BuildReceipt(a).value;
      SpendBrackets(a.costPerHr, a.stoppedAt - a.startedAt);
      StandsWithoutValidity(receipt.stored);
      PassIffClean(receipt.stored);
      FreshRevalidates(a);
    }
  }

  // ---------------------------------------------------------------- the reason of a withdrawal

  /** The reason field that counts: why it was withdrawn, or else why it was superseded. */
  function StatedReason(r: Stored): Reason {
    match r.withdrawnReason
    case One(text) => if text == "" then r.supersededReason else r.withdrawnReason
    case Many(texts) => if texts == [] then r.supersededReason else r.withdrawnReason
    case Absent => r.supersededReason
  }

  /** The texts of a reason. */
  function Texts(reason: Reason): seq<string> {
    match reason
    case Absent => []
    case One(text) => [text]
    case Many(texts) => texts
  }

  predicate Solid(s: string) {
    s != "" && !IsSpace(s[0]) && !IsSpace(s[|s| - 1])
  }

  lemma StripIsSolid(s: string)
    ensures Strip(s) != "" ==> Solid(Strip(s))
    ensures Contains(s, Strip(s))
  {
    var i := LeadingIs(s);
    assert Strip(s) <= s[i..];
  }

  lemma {:induction false} LeadingIs(s: string) returns (i: nat)
    ensures i <= |s| && DropLeading(s, Blanks) == s[i..]
  {
    i := 0;
    if s != [] && IsSpace(s[0]) {
      var j := LeadingIs(s[1..]);
      i := j + 1;
      assert s[1..][j..] == s[i..];
    } else {
      assert s[0..] == s;
    }
  }

  lemma {:induction false} LeadingKeeps(s: string, x: string)
    requires Solid(x) && Contains(s, x)
    ensures Contains(DropLeading(s, Blanks), x)
  {
    if s != [] && IsSpace(s[0]) {
      var i :| 0 <= i <= |s| && x <= s[i..];
      assert s[i..][0] == x[0];
      assert s[1..][i - 1..] == s[i..];
      LeadingKeeps(s[1..], x);
    }
  }

  lemma NotAtTheEnd(s: string, x: string, i: nat)
    requires Solid(x) && i <= |s| && x <= s[i..] && IsSpace(s[|s| - 1])
    ensures i <= |s| - 1 && x <= s[..|s| - 1][i..]
  {
    assert s[i..][|x| - 1] == s[i + |x| - 1];
    assert s[..|s| - 1][i..] == s[i..|s| - 1];
  }

  lemma {:induction false} TrailingKeeps(s: string, x: string)
    requires Solid(x) && Contains(s, x)
    ensures Contains(DropTrailing(s, Blanks), x)
  {
    if s != [] && IsSpace(s[|s| - 1]) {
      var i :| 0 <= i <= |s| && x <= s[i..];
      NotAtTheEnd(s, x, i);
      TrailingKeeps(s[..|s| - 1], x);
    }
  }

  lemma StripKeeps(s: string, x: string)
    requires Solid(x) && Contains(s, x)
    ensures Contains(Strip(s), x)
  {
    LeadingKeeps(s, x);
    TrailingKeeps(DropLeading(s, Blanks), x);
  }

  lemma ContainsIn(s: string, before: string, t: string, after: string)
    requires s == before + t + after
    ensures forall x | Contains(t, x) :: Contains(s, x)
  {
    forall x | Contains(t, x) ensures Contains(s, x) {
      var i :| 0 <= i <= |t| && x <= t[i..];
      assert s[|before| + i..] == t[i..] + after;
    }
  }

  lemma {:induction false} JoinKeeps(texts: seq<string>, k: nat)
    requires k < |texts| && Strip(texts[k]) != ""
    ensures JoinNonBlank(texts) != "" && Contains(JoinNonBlank(texts), Strip(texts[k]))
  {
    StripIsSolid(texts[k]);
    var rest, all := JoinNonBlank(texts[1..]), JoinNonBlank(texts);
    if k == 0 {
      ContainsIn(all, "", texts[0], if rest == "" then "" else "; " + rest);
    } else {
      JoinKeeps(texts[1..], k - 1);
      ContainsIn(all, if Strip(texts[0]) == "" then "" else texts[0] + "; ", rest, "");
    }
  }

  lemma {:induction false} JoinOfBlanks(texts: seq<string>)
    requires forall k | 0 <= k < |texts| :: Strip(texts[k]) == ""
    ensures JoinNonBlank(texts) == ""
  {
    if texts != [] { JoinOfBlanks(texts[1..]); }
  }

  /** A withdrawn receipt states a reason exactly when a text of the field that counts is not blank, and the
      reason then holds every such text. */
  lemma WithdrawalMeaning(r: Stored)
    ensures Withdrawal(r).Some? <==> Retired(r) && exists t | t in Texts(StatedReason(r)) :: Strip(t) != ""
    ensures Withdrawal(r).Some? ==>
              forall t | t in Texts(StatedReason(r)) && Strip(t) != "" :: Contains(Withdrawal(r).value, Strip(t))
  {
    var reason := StatedReason(r);
    assert reason == if Truthy(r.withdrawnReason) then r.withdrawnReason else r.supersededReason;
    ReasonHolds(reason);
  }

  lemma ReasonHolds(reason: Reason)
    ensures ReasonText(reason) != "" <==> exists t | t in Texts(reason) :: Strip(t) != ""
    ensures forall t | t in Texts(reason) && Strip(t) != "" :: Contains(ReasonText(reason), Strip(t))
  {
    match reason
    case Absent =>
    case One(text) =>
      assert text in [text];
      StripIsSolid(text);
      if Strip(text) != "" { StripKeeps(text, Strip(text)); }
    case Many(texts) =>
      forall t | t in texts && Strip(t) != ""
        ensures Contains(ReasonText(reason), Strip(t)) && ReasonText(reason) != ""
      {
        var k :| 0 <= k < |texts| && texts[k] == t;
        JoinKeeps(texts, k);
        StripIsSolid(t);
        StripKeeps(JoinNonBlank(texts), Strip(t));
      }
      if forall t | t in texts :: Strip(t) == "" { JoinOfBlanks(texts); }
  }

  /** The three words that retire a receipt, in capitals or not; a receipt without one of them stands. */
  lemma RetiredWords(r: Stored)
    ensures r.validity == "WITHDRAWN" || r.validity == "INVALIDATED" || r.validity == "INVALIDATED_PENDING_RERUN" ==>
              Retired(r)
    ensures r.validity == "withdrawn" ==> Retired(r)
    ensures r.validity == "" || r.validity == "VALID" ==> !Retired(r)
  {
    assert Upper("WITHDRAWN") == "WITHDRAWN" && Upper("withdrawn") == "WITHDRAWN";
    assert Upper("INVALIDATED") == "INVALIDATED";
    assert Upper("INVALIDATED_PENDING_RERUN") == "INVALIDATED_PENDING_RERUN";
    assert |Upper("VALID")| == 5 && |Upper("")| == 0;
  }

  /** An image is pinned when it names a digest, wherever that stands, and never without an at sign. */
  lemma PinnedImages(name: string, digest: string)
    ensures Pinned(name + "@sha256:" + digest)
    ensures '@' !in name ==> !Pinned(name)
  {
    ContainsIn(name + "@sha256:" + digest, name, "@sha256:", digest);
    assert "@sha256:"[0..] == "@sha256:";
    if Pinned(name) {
      var i :| 0 <= i <= |name| && "@sha256:" <= name[i..];
      assert name[i..][0] == '@' && name[i] == '@';
    }
  }
}
