/** The chaincode object, with Java's decimal strings. */
module ChainCode {
  import opened Common
  import opened Text
  import opened AccountBook
  import opened Accounts

  /** `Integer.toString`. */
  function ToString(n: int): string {
    if n < 0 then "-" + Decimal(-n) else Decimal(n)
  }

  /** `Integer.parseInt`: an optional sign and at least one digit, in range; None when it throws. */
  function ParseInt(s: string): (r: Option<int>)
    ensures r.Some? ==> Fits(r.value)
  {
    if s == "" then None
    else
      var signed := s[0] == '-' || s[0] == '+';
      var digits := if signed then s[1..] else s;
      if digits == "" || !AllDigits(digits) then None
      else
        var magnitude: int := DigitsValue(digits);
        var n := if s[0] == '-' then 0 - magnitude else magnitude;
        if Fits(n) then Some(n) else None
  }

  lemma ParseUndoesToString(n: int)
    requires Fits(n)
    ensures ParseInt(ToString(n)) == Some(n)
  {
    var m: nat := if n < 0 then -n else n;
    DigitsValueOfDecimal(m);
    assert IsDigit(Decimal(m)[0]);
    assert n < 0 ==> ToString(n)[1..] == Decimal(m);
  }

  /** `s` spells `n`: digits, after a plus or nothing, or after a minus for their negation. */
  ghost predicate Spells(s: string, digits: string, n: int) {
    && digits != "" && AllDigits(digits)
    && (((s == digits || s == "+" + digits) && n == DigitsValue(digits))
        || (s == "-" + digits && n + DigitsValue(digits) == 0))
  }

  /** Exactly which strings are read, and as what. */
  lemma ParseIntExactly(s: string, n: int)
    ensures ParseInt(s) == Some(n) <==> Fits(n) && exists digits :: Spells(s, digits, n)
  {
    if ParseInt(s) == Some(n) {
      var digits := if s[0] == '-' || s[0] == '+' then s[1..] else s;
      assert s == [s[0]] + s[1..];
      assert Spells(s, digits, n);
    }
    if digits :| Spells(s, digits, n) {
      assert IsDigit(digits[0]);
      assert s != digits ==> s[1..] == digits;
    }
  }

  const JAVA := Codec(ToString, ParseInt)

  /** So the conservation law holds of the chaincode with Java's strings. */
  lemma JavaCodecIsGood()
    ensures Good(JAVA)
  {
    forall n | Fits(n) ensures JAVA.parse(JAVA.show(n)) == Some(n) {
      ParseUndoesToString(n);
    }
  }

  /** The functions a client can name; anything else is not supported. */
  function OperationOf(name: string): Operation {
    if name == "create_account" then Create
    else if name == "remit" then Operation.Remit
    else if name == "balance_check" then Check
    else if name == "money_issuance" then IssueMoney
    else if name == "delete_account" then Delete
    else Unsupported
  }

  /** The names of the functions. */
  lemma NamesOfOperations(name: string)
    ensures OperationOf(name) == Create <==> name == "create_account"
    ensures OperationOf(name) == Operation.Remit <==> name == "remit"
    ensures OperationOf(name) == Check <==> name == "balance_check"
    ensures OperationOf(name) == IssueMoney <==> name == "money_issuance"
    ensures OperationOf(name) == Delete <==> name == "delete_account"
  {
    assert |"create_account"| == 14 && |"remit"| == 5 && |"balance_check"| == 13;
    assert "money_issuance"[0] == 'm' && "create_account"[0] == 'c' && "delete_account"[0] == 'd';
  }

  class MyChainCode {
    var world: World

    constructor ()
      ensures world == map[]
    {
      world := map[];
    }

    method Init() returns (r: Response)
      modifies this
      ensures Outcome(r, world) == Called(JAVA, old(world), Call.Init)
    {
      if Get(world, ADMIN) == "" {
        world := world[ADMIN := ToString(0)];
      }
      return Success(None);
    }

    method CreateAccount(args: seq<string>) returns (r: Response)
      modifies this
      ensures Outcome(r, world) == AccountCreated(JAVA, old(world), args)
    {
      if |args| != 2 {
        return Error;
      }
      var user, amount := args[0], ParseInt(args[1]);
      if amount.None? || amount.value < 0 {
        return Error;
      }
      if Get(world, user) != "" {
        return Error;
      }
      world := world[user := ToString(amount.value)];
      return Success(None);
    }

    method Remit(args: seq<string>) returns (r: Response)
      modifies this
      ensures Outcome(r, world) == Remitted(JAVA, old(world), args)
    {
      if |args| != 3 {
        return Error;
      }
      var sender, receiver := args[0], args[1];
      var amount := ParseInt(args[2]);
      var senderBalance, receiverBalance := ParseInt(Get(world, sender)), ParseInt(Get(world, receiver));
      if amount.None? || senderBalance.None? || receiverBalance.None? {
        return Error;
      }
      if amount.value < 0 || senderBalance.value < amount.value {
        return Error;
      }
      var left, received := Wrap(senderBalance.value - amount.value), Wrap(receiverBalance.value + amount.value);
      world := world[sender := ToString(left)];
      world := world[receiver := ToString(received)];
      return Success(None);
    }

    method BalanceCheck(args: seq<string>) returns (r: Response)
      ensures Outcome(r, world) == BalanceChecked(world, args)
    {
      if |args| != 1 {
        return Error;
      }
      var balance := Get(world, args[0]);
      if balance == "" {
        return Error;
      }
      return Success(Some(balance));
    }

    method MoneyIssuance(args: seq<string>) returns (r: Response)
      modifies this
      ensures Outcome(r, world) == MoneyIssued(JAVA, old(world), args)
    {
      if |args| != 1 {
        return Error;
      }
      var amount, admin := ParseInt(args[0]), ParseInt(Get(world, ADMIN));
      if amount.None? || admin.None? {
        return Error;
      }
      world := world[ADMIN := ToString(Wrap(amount.value + admin.value))];
      return Success(None);
    }

    method DeleteAccount(args: seq<string>) returns (r: Response)
      modifies this
      ensures Outcome(r, world) == AccountDeleted(old(world), args)
    {
      if |args| != 1 {
        return Error;
      }
      world := world - {args[0]};
      return Success(None);
    }

    method Invoke(name: string, args: seq<string>) returns (r: Response)
      modifies this
      ensures Outcome(r, world) == Called(JAVA, old(world), Call.Invoke(OperationOf(name), args))
    {
      if name == "create_account" {
        r := CreateAccount(args);
      } else if name == "remit" {
        r := Remit(args);
      } else if name == "balance_check" {
        r := BalanceCheck(args);
      } else if name == "money_issuance" {
        r := MoneyIssuance(args);
      } else if name == "delete_account" {
        r := DeleteAccount(args);
      } else {
        r := Error;
      }
    }
  }
}
