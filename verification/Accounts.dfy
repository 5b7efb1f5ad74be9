/** The account chaincode on its key-value state: balances kept as strings. */
module Accounts {
  import opened Common
  import opened AccountBook

  type World = map<string, string>

  /** How a balance becomes a string and back; None when the string is not a 32-bit number. */
  datatype Codec = Codec(show: int -> string, parse: string -> Option<int>)

  /** Parsing undoes showing, on 32-bit integers, and gives nothing else. */
  ghost predicate Good(c: Codec) {
    && (forall n :: Fits(n) ==> c.parse(c.show(n)) == Some(n))
    && (forall s :: c.parse(s).Some? ==> Fits(c.parse(s).value))
    && c.parse("").None?
  }

  datatype Response = Success(payload: Option<string>) | Error

  datatype Outcome = Outcome(response: Response, world: World)

  // ----- the chaincode on a state -----

  /** `getStringState`: the empty string for a key that is not there. */
  function Get(w: World, key: string): string { if key in w then w[key] else "" }

  function Initialized(c: Codec, w: World): World {
    if Get(w, ADMIN) == "" then w[ADMIN := c.show(0)] else w
  }

  function AccountCreated(c: Codec, w: World, args: seq<string>): Outcome {
    if |args| != 2 then Outcome(Error, w)
    else
      var amount := c.parse(args[1]);
      if amount.None? || amount.value < 0 || Get(w, args[0]) != "" then Outcome(Error, w)
      else Outcome(Success(None), w[args[0] := c.show(amount.value)])
  }

  /** Both balances are read before either is written; the difference cannot leave the 32-bit range. */
  function Remitted(c: Codec, w: World, args: seq<string>): Outcome {
    if |args| != 3 then Outcome(Error, w)
    else
      var amount, from, to := c.parse(args[2]), c.parse(Get(w, args[0])), c.parse(Get(w, args[1]));
      if amount.None? || from.None? || to.None? || amount.value < 0 || from.value < amount.value then Outcome(Error, w)
      else
        var left, received := from.value - amount.value, Wrap(to.value + amount.value);
        Outcome(Success(None), w[args[0] := c.show(left)][args[1] := c.show(received)])
  }

  function BalanceChecked(w: World, args: seq<string>): Outcome {
    if |args| != 1 || Get(w, args[0]) == "" then Outcome(Error, w)
    else Outcome(Success(Some(Get(w, args[0]))), w)
  }

  function MoneyIssued(c: Codec, w: World, args: seq<string>): Outcome {
    if |args| != 1 then Outcome(Error, w)
    else
      var amount, admin := c.parse(args[0]), c.parse(Get(w, ADMIN));
      if amount.None? || admin.None? then Outcome(Error, w)
      else Outcome(Success(None), w[ADMIN := c.show(Wrap(amount.value + admin.value))])
  }

  function AccountDeleted(w: World, args: seq<string>): Outcome {
    if |args| != 1 then Outcome(Error, w) else Outcome(Success(None), w - {args[0]})
  }

  datatype Operation = Create | Remit | Check | IssueMoney | Delete | Unsupported

  datatype Call = Init | Invoke(op: Operation, args: seq<string>)

  function Called(c: Codec, w: World, call: Call): Outcome {
    match call
    case Init => Outcome(Success(None), Initialized(c, w))
    case Invoke(op, args) =>
      match op
      case Create => AccountCreated(c, w, args)
      case Remit => Remitted(c, w, args)
      case Check => BalanceChecked(w, args)
      case IssueMoney => MoneyIssued(c, w, args)
      case Delete => AccountDeleted(w, args)
      case Unsupported => Outcome(Error, w)
  }

  /** The state after a run of calls on an empty ledger. */
  function StateAfter(c: Codec, calls: seq<Call>): World {
    if calls == [] then map[] else Called(c, StateAfter(c, calls[..|calls| - 1]), calls[|calls| - 1]).world
  }

  // ----- the state refines the book -----

  /** The state holds the book: the same accounts, each balance within 32 bits and stored as its string. */
  ghost predicate Holds(c: Codec, w: World, b: Book) {
    w.Keys == b.Keys && forall k :: k in b ==> Fits(b[k]) && w[k] == c.show(b[k])
  }

  /** The move a call stands for. */
  function Read(c: Codec, call: Call): Move {
    match call
    case Init => Boot
    case Invoke(op, args) =>
      if op.Create? && |args| == 2 then Open(args[0], c.parse(args[1]))
      else if op.Remit? && |args| == 3 then Transfer(args[0], args[1], c.parse(args[2]))
      else if op.Check? && |args| == 1 then Query(args[0])
      else if op.IssueMoney? && |args| == 1 then Issue(c.parse(args[0]))
      else if op.Delete? && |args| == 1 then Close(args[0])
      else Rejected
  }

  /** What is read back from the state is the balance in the book. */
  lemma BalanceReadsBook(c: Codec, w: World, b: Book, k: string)
    requires Good(c) && Holds(c, w, b)
    ensures c.parse(Get(w, k)) == if k in b then Some(b[k]) else None
    ensures Get(w, k) == "" <==> k !in b
  {
  }

  lemma PutHolds(c: Codec, w: World, b: Book, k: string, n: int)
    requires Holds(c, w, b) && Fits(n)
    ensures Holds(c, w[k := c.show(n)], b[k := n])
  {
  }

  /** The outcome on the strings is the move on the balances, and it is a success when the move succeeds. */
  ghost predicate Refines(c: Codec, o: Outcome, b: Book, m: Move) {
    Holds(c, o.world, Moved(b, m)) && (o.response.Success? <==> Succeeds(b, m))
  }

  lemma InitRefines(c: Codec, w: World, b: Book)
    requires Good(c) && Holds(c, w, b)
    ensures Refines(c, Outcome(Success(None), Initialized(c, w)), b, Boot)
  {
  }

  lemma CreateRefines(c: Codec, w: World, b: Book, args: seq<string>)
    requires Good(c) && Holds(c, w, b) && |args| == 2
    ensures Refines(c, AccountCreated(c, w, args), b, Open(args[0], c.parse(args[1])))
  {
  }

  lemma RemitRefines(c: Codec, w: World, b: Book, args: seq<string>)
    requires Good(c) && Holds(c, w, b) && |args| == 3
    ensures Refines(c, Remitted(c, w, args), b, Transfer(args[0], args[1], c.parse(args[2])))
  {
    var from, to, amount := args[0], args[1], c.parse(args[2]);
    BalanceReadsBook(c, w, b, from);
    BalanceReadsBook(c, w, b, to);
    if Succeeds(b, Transfer(from, to, amount)) {
      var left, received := b[from] - amount.value, Wrap(b[to] + amount.value);
      PutHolds(c, w, b, from, left);
      PutHolds(c, w[from := c.show(left)], b[from := left], to, received);
    }
  }

  lemma IssueRefines(c: Codec, w: World, b: Book, args: seq<string>)
    requires Good(c) && Holds(c, w, b) && |args| == 1
    ensures Refines(c, MoneyIssued(c, w, args), b, Issue(c.parse(args[0])))
  {
  }

  lemma CheckRefines(c: Codec, w: World, b: Book, args: seq<string>)
    requires Good(c) && Holds(c, w, b) && |args| == 1
    ensures Refines(c, BalanceChecked(w, args), b, Query(args[0]))
  {
  }

  lemma DeleteRefines(c: Codec, w: World, b: Book, args: seq<string>)
    requires Holds(c, w, b) && |args| == 1
    ensures Refines(c, AccountDeleted(w, args), b, Close(args[0]))
  {
  }

  /** Every call on the string state refines its move on the book. */
  lemma CallRefines(c: Codec, w: World, b: Book, call: Call)
    requires Good(c) && Holds(c, w, b)
    ensures Refines(c, Called(c, w, call), b, Read(c, call))
  {
    match call
    case Init => InitRefines(c, w, b);
    case Invoke(op, args) =>
      if !Read(c, call).Rejected? {
        match op
        case Create => CreateRefines(c, w, b, args);
        case Remit => RemitRefines(c, w, b, args);
        case Check => CheckRefines(c, w, b, args);
        case IssueMoney => IssueRefines(c, w, b, args);
        case Delete => DeleteRefines(c, w, b, args);
      }
  }

  function ReadAll(c: Codec, calls: seq<Call>): seq<Move> {
    seq(|calls|, i requires 0 <= i < |calls| => Read(c, calls[i]))
  }

  lemma {:induction false} RunHolds(c: Codec, calls: seq<Call>)
    requires Good(c)
    ensures Holds(c, StateAfter(c, calls), After(ReadAll(c, calls)))
  {
    if calls != [] {
      var before := calls[..|calls| - 1];
      RunHolds(c, before);
      assert ReadAll(c, calls)[..|calls| - 1] == ReadAll(c, before);
      CallRefines(c, StateAfter(c, before), After(ReadAll(c, before)), calls[|calls| - 1]);
    }
  }

  /** Over every run of calls the stored strings hold the book of the run, so each one parses back to its balance
      (`BalanceReadsBook`), and the sum of these balances obeys the law of conservation. */
  lemma ChaincodeConservesMoney(c: Codec, calls: seq<Call>)
    requires Good(c)
    ensures var moves := ReadAll(c, calls);
      && Holds(c, StateAfter(c, calls), After(moves))
      && Sum(After(moves)) == Total(moves, Deposited) + Total(moves, Issued) - Total(moves, Deleted)
                            + Total(moves, SelfRemitted) - OverflowOf(moves)
  {
    RunHolds(c, calls);
    MoneyIsConserved(ReadAll(c, calls));
  }

  /** After every run a balance check succeeds exactly for the accounts of the book, and the string it returns parses
      to the balance. */
  lemma CheckReportsBalance(c: Codec, calls: seq<Call>, user: string)
    requires Good(c)
    ensures var b := After(ReadAll(c, calls));
      var r := BalanceChecked(StateAfter(c, calls), [user]).response;
      && (r.Success? <==> user in b)
      && (r.Success? ==> r.payload.Some? && c.parse(r.payload.value) == Some(b[user]))
  {
    RunHolds(c, calls);
    BalanceReadsBook(c, StateAfter(c, calls), After(ReadAll(c, calls)), user);
  }

  /** A failed call changes nothing. */
  lemma ErrorsChangeNothing(c: Codec, w: World, call: Call)
    requires Called(c, w, call).response.Error?
    ensures Called(c, w, call).world == w
  {
  }

  /** On the stored strings: after set-up, an account opened with `n` that remits `n` to itself reports twice that. */
  lemma SelfRemitDoublesBalance(c: Codec, user: string, n: int)
    requires Good(c) && user != ADMIN && n > 0 && Fits(n + n)
    ensures var amount := c.show(n);
      var calls := [Init, Invoke(Create, [user, amount]), Invoke(Remit, [user, user, amount])];
      var r := BalanceChecked(StateAfter(c, calls), [user]).response;
      r.Success? && r.payload.Some? && c.parse(r.payload.value) == Some(n + n)
  {
    var amount := c.show(n);
    var calls := [Init, Invoke(Create, [user, amount]), Invoke(Remit, [user, user, amount])];
    assert ReadAll(c, calls) == SelfRemitRun(user, n);
    SelfRemitCreatesMoney(user, n);
    CheckReportsBalance(c, calls, user);
  }
}
