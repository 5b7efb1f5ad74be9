/** What every call of the account chaincode does, observed through balance checks after any run of calls. */
module AccountCalls {
  import opened Common
  import opened AccountBook
  import opened Accounts

  /** The balance that a check reports, read as a number; None when it fails. */
  function Balance(c: Codec, w: World, user: string): Option<int> {
    match BalanceChecked(w, [user]).response
    case Success(Some(text)) => c.parse(text)
    case _ => None
  }

  function Booked(b: Book, user: string): Option<int> { if user in b then Some(b[user]) else None }

  lemma BalanceIsBooked(c: Codec, w: World, b: Book, user: string)
    requires Good(c) && Holds(c, w, b)
    ensures Balance(c, w, user) == Booked(b, user)
  {
    BalanceReadsBook(c, w, b, user);
  }

  /** After a call every balance is that of the moved book. */
  lemma CallMovesBalances(c: Codec, calls: seq<Call>, call: Call, user: string)
    requires Good(c)
    ensures var w, b, m := StateAfter(c, calls), After(ReadAll(c, calls)), Read(c, call);
      && Balance(c, w, user) == Booked(b, user)
      && Balance(c, Called(c, w, call).world, user) == Booked(Moved(b, m), user)
      && (Called(c, w, call).response.Success? <==> Succeeds(b, m))
  {
    var w, b := StateAfter(c, calls), After(ReadAll(c, calls));
    RunHolds(c, calls);
    CallRefines(c, w, b, call);
    BalanceIsBooked(c, w, b, user);
    BalanceIsBooked(c, Called(c, w, call).world, Moved(b, Read(c, call)), user);
  }

  lemma IssueBooked(b: Book, n: Option<int>, other: string)
    ensures var m, a := Issue(n), Booked(b, ADMIN);
      && (Succeeds(b, m) <==> n.Some? && a.Some?)
      && Booked(Moved(b, m), other) ==
           if Succeeds(b, m) && other == ADMIN then Some(Wrap(a.value + n.value)) else Booked(b, other)
  {
  }

  /** Opening an account succeeds exactly for a new name and an amount that is not negative; the account then holds the
      amount, and all others what they held. */
  lemma CreateObserved(c: Codec, calls: seq<Call>, user: string, amount: string, other: string)
    requires Good(c)
    ensures var w := StateAfter(c, calls);
      var o, n := Called(c, w, Invoke(Create, [user, amount])), c.parse(amount);
      && (o.response.Success? <==> Balance(c, w, user).None? && n.Some? && n.value >= 0)
      && Balance(c, o.world, other) == if o.response.Success? && other == user then n else Balance(c, w, other)
  {
    CallMovesBalances(c, calls, Invoke(Create, [user, amount]), user);
    CallMovesBalances(c, calls, Invoke(Create, [user, amount]), other);
  }

  /** The answer to a remittance and the balance of `other` after it, from the balances before it: it succeeds exactly
      between two accounts, for an amount that is neither negative nor more than the sender has; the receiver then has
      the wrapped sum, the sender, if another, the difference, and all others what they had. */
  ghost predicate Transfers(ok: bool, n: Option<int>, s: Option<int>, r: Option<int>, isSender: bool, isReceiver: bool,
                            was: Option<int>, now: Option<int>) {
    && (ok <==> n.Some? && s.Some? && r.Some? && 0 <= n.value <= s.value)
    && now == if !ok then was
              else if isReceiver then Some(Wrap(r.value + n.value))
              else if isSender then Some(s.value - n.value)
              else was
  }

  lemma TransferBooked(b: Book, from: string, to: string, n: Option<int>, other: string)
    ensures var m := Transfer(from, to, n);
      Transfers(Succeeds(b, m), n, Booked(b, from), Booked(b, to), other == from, other == to,
                Booked(b, other), Booked(Moved(b, m), other))
  {
  }

  lemma RemitObserved(c: Codec, calls: seq<Call>, from: string, to: string, amount: string, other: string)
    requires Good(c)
    ensures var w := StateAfter(c, calls);
      var o := Called(c, w, Invoke(Remit, [from, to, amount]));
      Transfers(o.response.Success?, c.parse(amount), Balance(c, w, from), Balance(c, w, to),
                other == from, other == to, Balance(c, w, other), Balance(c, o.world, other))
  {
    TransferBooked(After(ReadAll(c, calls)), from, to, c.parse(amount), other);
    CallMovesBalances(c, calls, Invoke(Remit, [from, to, amount]), from);
    CallMovesBalances(c, calls, Invoke(Remit, [from, to, amount]), to);
    CallMovesBalances(c, calls, Invoke(Remit, [from, to, amount]), other);
  }

  /** Issuing succeeds exactly when the admin account is there and the amount, of any sign, is a number; the admin then
      has the wrapped sum. */
  lemma IssueObserved(c: Codec, calls: seq<Call>, amount: string, other: string)
    requires Good(c)
    ensures var w := StateAfter(c, calls);
      var o, n, a := Called(c, w, Invoke(IssueMoney, [amount])), c.parse(amount), Balance(c, w, "admin");
      && (o.response.Success? <==> n.Some? && a.Some?)
      && Balance(c, o.world, other) ==
           if o.response.Success? && other == "admin" then Some(Wrap(a.value + n.value)) else Balance(c, w, other)
  {
    CallMovesBalances(c, calls, Invoke(IssueMoney, [amount]), ADMIN);
    CallMovesBalances(c, calls, Invoke(IssueMoney, [amount]), other);
    IssueBooked(After(ReadAll(c, calls)), c.parse(amount), other);
  }

  /** Deleting always succeeds and leaves no account of that name; set-up makes sure of an admin account. */
  lemma DeleteAndInitObserved(c: Codec, calls: seq<Call>, user: string, other: string)
    requires Good(c)
    ensures var w := StateAfter(c, calls);
      var o := Called(c, w, Invoke(Delete, [user]));
      && o.response.Success?
      && Balance(c, o.world, other) == if other == user then None else Balance(c, w, other)
    ensures var w := StateAfter(c, calls);
      var o := Called(c, w, Init);
      && o.response.Success?
      && Balance(c, o.world, other) ==
           if other == "admin" && Balance(c, w, other).None? then Some(0) else Balance(c, w, other)
  {
    CallMovesBalances(c, calls, Invoke(Delete, [user]), other);
    CallMovesBalances(c, calls, Init, other);
  }

  /** Calls with a wrong number of arguments, and unknown ones, fail and change nothing. */
  lemma WrongCallsFail(c: Codec, w: World, op: Operation, args: seq<string>)
    requires match op
      case Create => |args| != 2
      case Remit => |args| != 3
      case Check => |args| != 1
      case IssueMoney => |args| != 1
      case Delete => |args| != 1
      case Unsupported => true
    ensures Called(c, w, Invoke(op, args)) == Outcome(Error, w)
  {
  }

  // ----- balances stay positive -----

  /** Issues are not negative and no sum leaves the 32-bit range. */
  ghost predicate Orderly(run: seq<Move>) {
    forall i :: 0 <= i < |run| ==>
      Fits(Computed(After(run[..i]), run[i])) && (run[i].Issue? && run[i].issue.Some? ==> run[i].issue.value >= 0)
  }

  lemma MoveKeepsPositive(b: Book, m: Move, k: string)
    requires forall j :: j in b ==> b[j] >= 0
    requires Fits(Computed(b, m)) && (m.Issue? && m.issue.Some? ==> m.issue.value >= 0)
    requires k in Moved(b, m)
    ensures Moved(b, m)[k] >= 0
  {
  }

  /** Over every orderly run no balance is negative: nobody can spend what they do not have. */
  lemma {:induction false} NobodyOverdraws(run: seq<Move>, k: string)
    requires Orderly(run) && k in After(run)
    ensures After(run)[k] >= 0
  {
    if run != [] {
      var before, m := run[..|run| - 1], run[|run| - 1];
      forall i | 0 <= i < |before|
        ensures Fits(Computed(After(before[..i]), before[i]))
             && (before[i].Issue? && before[i].issue.Some? ==> before[i].issue.value >= 0)
      {
        assert before[..i] == run[..i] && before[i] == run[i];
      }
      forall j | j in After(before) ensures After(before)[j] >= 0 {
        NobodyOverdraws(before, j);
      }
      assert Fits(Computed(After(run[..|run| - 1]), run[|run| - 1]));
      MoveKeepsPositive(After(before), m, k);
    }
  }
}
