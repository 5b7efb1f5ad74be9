/** The accounts as a book of 32-bit balances, and the law of conservation on it. */
module AccountBook {
  import opened Common

  predicate Fits(n: int) { -0x8000_0000 <= n <= 0x7fff_ffff }

  /** What wrap-around takes off the sum or difference of two 32-bit integers; 0 when it fits. */
  function Overflow(n: int): int {
    if n > 0x7fff_ffff then 0x1_0000_0000 else if n < -0x8000_0000 then -0x1_0000_0000 else 0
  }

  /** Java's wrap-around of the sum or difference of two 32-bit integers. */
  function Wrap(n: int): (r: int)
    ensures -0x1_0000_0000 <= n <= 0xffff_fffe ==> Fits(r)
    ensures Fits(n) <==> r == n
  {
    n - Overflow(n)
  }

  type Book = map<string, int>

  const ADMIN := "admin"

  /** A call of the chaincode with its arguments read; None is an argument that is not a number. */
  datatype Move =
    | Boot
    | Open(user: string, deposit: Option<int>)
    | Transfer(from: string, to: string, sent: Option<int>)
    | Issue(issue: Option<int>)
    | Close(user: string)
    | Query(user: string)
    | Rejected  // wrong number of arguments, or an unknown function

  predicate Succeeds(b: Book, m: Move) {
    match m
    case Boot => true
    case Open(user, deposit) => deposit.Some? && deposit.value >= 0 && user !in b
    case Transfer(from, to, sent) => sent.Some? && from in b && to in b && 0 <= sent.value <= b[from]
    case Issue(issue) => issue.Some? && ADMIN in b
    case Close(_) => true
    case Query(user) => user in b
    case Rejected => false
  }

  function Moved(b: Book, m: Move): Book {
    if !Succeeds(b, m) then b
    else match m
      case Boot => if ADMIN in b then b else b[ADMIN := 0]
      case Open(user, deposit) => b[user := deposit.value]
      case Transfer(from, to, sent) => b[from := b[from] - sent.value][to := Wrap(b[to] + sent.value)]
      case Issue(issue) => b[ADMIN := Wrap(issue.value + b[ADMIN])]
      case Close(user) => b - {user}
      case Query(_) => b
      case Rejected => b
  }

  /** The accounts a move names. */
  function Named(m: Move): set<string> {
    match m
    case Boot => {ADMIN}
    case Open(user, _) => {user}
    case Transfer(from, to, _) => {from, to}
    case Issue(_) => {ADMIN}
    case Close(user) => {user}
    case Query(_) => {}
    case Rejected => {}
  }

  /** A move touches no other account, and a transfer between two accounts takes from one what it gives to the
      other, as long as the receiver's sum fits. */
  lemma MovesTouchOnlyNamed(b: Book, m: Move, k: string)
    ensures k !in Named(m) ==> (k in Moved(b, m) <==> k in b) && (k in b ==> Moved(b, m)[k] == b[k])
    ensures m.Transfer? && Succeeds(b, m) && m.from != m.to && Fits(b[m.to] + m.sent.value) ==>
      && m.from in Moved(b, m) && Moved(b, m)[m.from] == b[m.from] - m.sent.value
      && m.to in Moved(b, m) && Moved(b, m)[m.to] == b[m.to] + m.sent.value
  {
  }

  // ----- sums -----

  ghost function Sum(m: Book): int
    decreases |m|
  {
    if m == map[] then 0
    else
      var k :| k in m;
      SmallerWithout(m, k);
      m[k] + Sum(m - {k})
  }

  lemma SmallerWithout(m: Book, k: string)
    requires k in m
    ensures |m - {k}| < |m|
  {
  }

  /** Any key can be taken out first. */
  lemma {:induction false} SumWithout(m: Book, k: string)
    requires k in m
    ensures Sum(m) == m[k] + Sum(m - {k})
    decreases |m|
  {
    var j :| j in m && Sum(m) == m[j] + Sum(m - {j});
    if j != k {
      SmallerWithout(m, j);
      SmallerWithout(m, k);
      SumWithout(m - {j}, k);
      SumWithout(m - {k}, j);
      assert m - {j} - {k} == m - {k} - {j};
    }
  }

  function At(m: Book, k: string): int { if k in m then m[k] else 0 }

  lemma SumUpdate(m: Book, k: string, v: int)
    ensures Sum(m[k := v]) == Sum(m) - At(m, k) + v
  {
    SumWithout(m[k := v], k);
    assert m[k := v] - {k} == m - {k};
    if k in m {
      SumWithout(m, k);
    } else {
      assert m - {k} == m;
    }
  }

  lemma SumRemove(m: Book, k: string)
    ensures Sum(m - {k}) == Sum(m) - At(m, k)
  {
    if k in m {
      SumWithout(m, k);
    } else {
      assert m - {k} == m;
    }
  }

  // ----- conservation -----

  /** The ways in which money enters or leaves the accounts. */
  datatype Flow = Deposited | Issued | Deleted | SelfRemitted

  /** What a move adds to a flow: an opening deposit, an issue, a deleted balance, or a remittance to oneself. */
  function Amount(b: Book, m: Move, flow: Flow): int {
    if !Succeeds(b, m) then 0
    else match m
      case Open(_, deposit) => if flow.Deposited? then deposit.value else 0
      case Issue(issue) => if flow.Issued? then issue.value else 0
      case Close(user) => if flow.Deleted? then At(b, user) else 0
      case Transfer(from, to, sent) => if flow.SelfRemitted? && from == to then sent.value else 0
      case _ => 0
  }

  /** What a move contributes to the total, in unbounded arithmetic. */
  function Contribution(b: Book, m: Move): int {
    Amount(b, m, Deposited) + Amount(b, m, Issued) - Amount(b, m, Deleted) + Amount(b, m, SelfRemitted)
  }

  /** The sum a move computes, when it computes one; it may leave the 32-bit range. */
  function Computed(b: Book, m: Move): int {
    if !Succeeds(b, m) then 0
    else match m
      case Transfer(_, to, sent) => b[to] + sent.value
      case Issue(issue) => issue.value + b[ADMIN]
      case _ => 0
  }

  /** What a move does to the total: its contribution, less the overflow of the sum it computes. */
  function Change(b: Book, m: Move): int {
    Contribution(b, m) - Overflow(Computed(b, m))
  }

  lemma TransferSum(b: Book, from: string, to: string, sent: int, received: int)
    requires from in b && to in b
    ensures Sum(b[from := b[from] - sent][to := received])
         == Sum(b) + (if from == to then sent else 0) + received - (b[to] + sent)
  {
    SumUpdate(b, from, b[from] - sent);
    SumUpdate(b[from := b[from] - sent], to, received);
  }

  lemma TransferBalanced(b: Book, from: string, to: string, sent: int)
    requires Succeeds(b, Transfer(from, to, Some(sent)))
    ensures Sum(Moved(b, Transfer(from, to, Some(sent)))) == Sum(b) + Change(b, Transfer(from, to, Some(sent)))
  {
    TransferSum(b, from, to, sent, Wrap(b[to] + sent));
  }

  lemma IssueBalanced(b: Book, n: int)
    requires Succeeds(b, Issue(Some(n)))
    ensures Sum(Moved(b, Issue(Some(n)))) == Sum(b) + Change(b, Issue(Some(n)))
  {
    SumUpdate(b, ADMIN, Wrap(n + b[ADMIN]));
  }

  lemma OtherBalanced(b: Book, m: Move)
    requires (m.Transfer? || m.Issue?) ==> !Succeeds(b, m)
    ensures Sum(Moved(b, m)) == Sum(b) + Change(b, m)
  {
    match m
    case Boot =>
      if ADMIN !in b {
        SumUpdate(b, ADMIN, 0);
      }
    case Open(user, deposit) =>
      if Succeeds(b, m) {
        SumUpdate(b, user, deposit.value);
      }
    case Close(user) => SumRemove(b, user);
    case _ =>
  }

  /** Every move changes the total by exactly that. */
  lemma MoveBalanced(b: Book, m: Move)
    ensures Sum(Moved(b, m)) == Sum(b) + Change(b, m)
  {
    if m.Transfer? && Succeeds(b, m) {
      TransferBalanced(b, m.from, m.to, m.sent.value);
    } else if m.Issue? && Succeeds(b, m) {
      IssueBalanced(b, m.issue.value);
    } else {
      OtherBalanced(b, m);
    }
  }

  function After(run: seq<Move>): Book {
    if run == [] then map[] else Moved(After(run[..|run| - 1]), run[|run| - 1])
  }

  /** A flow over a whole run. */
  function Total(run: seq<Move>, flow: Flow): int {
    if run == [] then 0
    else Total(run[..|run| - 1], flow) + Amount(After(run[..|run| - 1]), run[|run| - 1], flow)
  }

  /** What wrap-around took off in a whole run. */
  function OverflowOf(run: seq<Move>): int {
    if run == [] then 0
    else OverflowOf(run[..|run| - 1]) + Overflow(Computed(After(run[..|run| - 1]), run[|run| - 1]))
  }

  lemma {:induction false} OverflowIsMultiple(run: seq<Move>)
    ensures OverflowOf(run) % 0x1_0000_0000 == 0
  {
    if run != [] {
      OverflowIsMultiple(run[..|run| - 1]);
      AddMultiple(OverflowOf(run[..|run| - 1]), Computed(After(run[..|run| - 1]), run[|run| - 1]));
    }
  }

  lemma AddMultiple(a: int, n: int)
    requires a % 0x1_0000_0000 == 0
    ensures (a + Overflow(n)) % 0x1_0000_0000 == 0
  {
  }

  /** Conservation over every run: the sum of all balances is deposits plus issues minus deleted balances plus
      what was remitted to the sender itself, less what wrap-around took off. */
  lemma {:induction false} MoneyIsConserved(run: seq<Move>)
    ensures Sum(After(run)) == Total(run, Deposited) + Total(run, Issued) - Total(run, Deleted)
                             + Total(run, SelfRemitted) - OverflowOf(run)
  {
    if run != [] {
      MoneyIsConserved(run[..|run| - 1]);
      MoveBalanced(After(run[..|run| - 1]), run[|run| - 1]);
    }
  }

  ghost predicate NeverOverflows(run: seq<Move>) {
    forall i :: 0 <= i < |run| ==> Fits(Computed(After(run[..i]), run[i]))
  }

  lemma {:induction false} FittingSumsLoseNothing(run: seq<Move>)
    requires NeverOverflows(run)
    ensures OverflowOf(run) == 0
  {
    if run != [] {
      var before := run[..|run| - 1];
      forall i | 0 <= i < |before| ensures Fits(Computed(After(before[..i]), before[i])) {
        assert before[..i] == run[..i];
      }
      FittingSumsLoseNothing(before);
      assert Fits(Computed(After(run[..|run| - 1]), run[|run| - 1]));
    }
  }

  lemma DistinctRemitAddsNothing(b: Book, m: Move)
    requires m.Transfer? ==> m.from != m.to
    ensures Amount(b, m, SelfRemitted) == 0
  {
  }

  /** With sender and receiver distinct in every remittance, remittances contribute nothing. */
  lemma {:induction false} DistinctRemitsAddNothing(run: seq<Move>)
    requires forall i :: 0 <= i < |run| && run[i].Transfer? ==> run[i].from != run[i].to
    ensures Total(run, SelfRemitted) == 0
  {
    if run != [] {
      DistinctRemitsAddNothing(run[..|run| - 1]);
      DistinctRemitAddsNothing(After(run[..|run| - 1]), run[|run| - 1]);
    }
  }

  lemma Negated(a: int)
    requires a % 0x1_0000_0000 == 0
    ensures -a % 0x1_0000_0000 == 0
  {
  }

  /** So with distinct parties the total is deposits plus issues minus deleted balances, modulo 2^32, and exactly
      that when no sum overflows. */
  lemma MoneyIsConservedModulo(run: seq<Move>)
    requires forall i :: 0 <= i < |run| && run[i].Transfer? ==> run[i].from != run[i].to
    ensures var law := Total(run, Deposited) + Total(run, Issued) - Total(run, Deleted);
      && (Sum(After(run)) - law) % 0x1_0000_0000 == 0
      && (NeverOverflows(run) ==> Sum(After(run)) == law)
  {
    MoneyIsConserved(run);
    DistinctRemitsAddNothing(run);
    OverflowIsMultiple(run);
    Negated(OverflowOf(run));
    if NeverOverflows(run) {
      FittingSumsLoseNothing(run);
    }
  }

  /** One remittance between 32-bit balances keeps the total exactly when sender and receiver differ and the
      receiver's sum fits, or nothing is sent: remitting to oneself creates the amount. */
  lemma RemitKeepsTotalExactly(b: Book, from: string, to: string, sent: int)
    requires Succeeds(b, Transfer(from, to, Some(sent))) && Fits(sent) && Fits(b[to])
    ensures Sum(Moved(b, Transfer(from, to, Some(sent)))) == Sum(b)
       <==> (from != to && Fits(b[to] + sent)) || sent == 0
  {
    TransferSum(b, from, to, sent, Wrap(b[to] + sent));
  }

  /** The ledger is set up, `user` opens an account with `n` and remits all of it to itself. */
  function SelfRemitRun(user: string, n: int): seq<Move> {
    [Boot, Open(user, Some(n)), Transfer(user, user, Some(n))]
  }

  /** Money from nothing: the account then holds `n` more, and so does the ledger, as long as the sum fits. */
  lemma SelfRemitCreatesMoney(user: string, n: int)
    requires user != ADMIN && n > 0 && Fits(n + n)
    ensures var run := SelfRemitRun(user, n);
      && Sum(After(run[..2])) == n && Sum(After(run)) == n + n
      && After(run) == map[ADMIN := 0, user := n + n]
  {
    var run := SelfRemitRun(user, n);
    var funded := map[ADMIN := 0, user := n];
    assert run[..1] == [Boot] && run[..2] == [Boot] + [Open(user, Some(n))];
    assert run == [Boot] + [Open(user, Some(n))] + [Transfer(user, user, Some(n))];
    AfterSnoc([], Boot);
    assert [] + [Boot] == [Boot] && After([Boot]) == map[ADMIN := 0];
    AfterSnoc([Boot], Open(user, Some(n)));
    assert After(run[..2]) == funded;
    AfterSnoc(run[..2], Transfer(user, user, Some(n)));
    TransferSum(funded, user, user, n, n + n);
    SumOfTwo(user, n);
  }

  lemma AfterSnoc(run: seq<Move>, m: Move)
    ensures After(run + [m]) == Moved(After(run), m)
  {
    assert (run + [m])[..|run|] == run;
  }

  lemma SumOfTwo(user: string, n: int)
    requires user != ADMIN
    ensures Sum(map[ADMIN := 0, user := n]) == n
  {
    var empty: Book := map[];
    SumUpdate(empty, ADMIN, 0);
    SumUpdate(empty[ADMIN := 0], user, n);
    assert empty[ADMIN := 0][user := n] == map[ADMIN := 0, user := n];
  }
}
