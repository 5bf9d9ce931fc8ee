/** The pins ledger of the web site: credits (app/controllers/admin_controller.rb), code purchases
    (app/controllers/preferences_controller.rb) and the seller switch
    (app/controllers/users_controller.rb). Each action is one step and every save succeeds. */
module Ledger {

  datatype User = User(pins: real, seller: bool)

  /** A row inserted into `_EPINS`. */
  datatype Code = Code(creator: nat, package: int, silkAmount: nat, cost: nat)

  const SILKS: seq<nat> := [0, 500, 1000, 2200, 3300, 5500, 11500, 18000, 25000]
  const PRICES: seq<nat> := [0, 5, 10, 20, 30, 50, 100, 150, 200]

  /** Ruby's array index: a negative one counts from the end. Outside -9..8 the entry is nil, and
      comparing the balance with it raises before anything is written. */
  predicate HasEntry(package: int) { -9 <= package <= 8 }

  function Entry(table: seq<nat>, package: int): nat
    requires |table| == 9 && HasEntry(package)
  {
    table[if package < 0 then 9 + package else package]
  }

  datatype Action =
    | AddPins(user: nat, amount: real)        // an administrator's credit
    | GenerateCode(user: nat, package: int)   // `params[:package].to_i`, any integer
    | BeSeller(user: nat)                     // the switch

  /** The tables, and history: pins ever credited and pins zeroed when a seller was demoted. */
  datatype State = State(users: seq<User>, codes: seq<Code>, credited: real, zeroed: real)

  function Init(count: nat): State {
    State(seq(count, _ => User(0.0, false)), [], 0.0, 0.0)
  }

  /** An action that is refused or raises changes nothing. */
  function Step(s: State, a: Action): State {
    match a
    case AddPins(user, amount) =>
      if amount < 0.0 || user >= |s.users| then s
      else s.(users := Credit(s.users, user, amount), credited := s.credited + amount)
    case GenerateCode(user, package) =>
      if !CanBuy(s.users, user, package) then s
      else
        var price := Entry(PRICES, package);
        s.(users := Credit(s.users, user, -(price as real)),
           codes := s.codes + [Code(user, package, Entry(SILKS, package), price)])
    case BeSeller(user) =>
      if user >= |s.users| then s
      else if s.users[user].seller then
        s.(users := s.users[user := User(0.0, false)], zeroed := s.zeroed + s.users[user].pins)
      else s.(users := s.users[user := s.users[user].(seller := true)])
  }

  function Run(count: nat, actions: seq<Action>): State {
    if actions == [] then Init(count) else Step(Run(count, actions[..|actions|-1]), actions[|actions|-1])
  }

  /** No balance is negative; every pin credited is held, spent on a code or zeroed; and the silk
      sold lies between 100 and 125 times its cost. */
  ghost predicate Balanced(s: State) {
    && (forall i :: 0 <= i < |s.users| ==> s.users[i].pins >= 0.0)
    && s.credited == Held(s.users) + Cost(s.codes) as real + s.zeroed
    && 0.0 <= s.zeroed <= s.credited
    && 100 * Cost(s.codes) <= Silk(s.codes) <= 125 * Cost(s.codes)
  }

  lemma CreditBalanced(s: State, user: nat, amount: real)
    requires Balanced(s)
    ensures Balanced(Step(s, AddPins(user, amount)))
  {
    if user < |s.users| && amount >= 0.0 {
      HeldUpdate(s.users, user, s.users[user].pins + amount, s.users[user].seller);
    }
  }

  lemma CodeBalanced(s: State, user: nat, package: int)
    requires Balanced(s)
    ensures Balanced(Step(s, GenerateCode(user, package)))
  {
    if CanBuy(s.users, user, package) {
      var price := Entry(PRICES, package);
      HeldUpdate(s.users, user, s.users[user].pins - price as real, s.users[user].seller);
      var r := Step(s, GenerateCode(user, package));
      assert r.codes[..|s.codes|] == s.codes;
      assert 100 * price <= Entry(SILKS, package) <= 125 * price;
    }
  }

  lemma SwitchBalanced(s: State, user: nat)
    requires Balanced(s)
    ensures Balanced(Step(s, BeSeller(user)))
  {
    if user < |s.users| {
      var u := s.users[user];
      HeldUpdate(s.users, user, if u.seller then 0.0 else u.pins, !u.seller);
      HeldNotNegative(Step(s, BeSeller(user)).users);
    }
  }

  lemma StepBalanced(s: State, a: Action)
    requires Balanced(s)
    ensures Balanced(Step(s, a))
  {
    hide Balanced, Step;
    match a
    case AddPins(user, amount) => CreditBalanced(s, user, amount);
    case GenerateCode(user, package) => CodeBalanced(s, user, package);
    case BeSeller(user) => SwitchBalanced(s, user);
  }

  /** Over every run the books balance. */
  lemma {:induction false} RunBalanced(count: nat, actions: seq<Action>)
    ensures Balanced(Run(count, actions))
    decreases |actions|
  {
    hide Step, Balanced;
    if actions == [] {
      InitBalanced(count);
    } else {
      RunBalanced(count, actions[..|actions|-1]);
      StepBalanced(Run(count, actions[..|actions|-1]), actions[|actions|-1]);
    }
  }

  lemma InitBalanced(count: nat)
    ensures Balanced(Init(count))
  {
    NewUsersHold(count);
  }

  lemma {:induction false} HeldNotNegative(users: seq<User>)
    requires forall i :: 0 <= i < |users| ==> users[i].pins >= 0.0
    ensures Held(users) >= 0.0
    decreases |users|
  {
    if users != [] {
      HeldNotNegative(users[..|users|-1]);
    }
  }

  /** The controllers: each changes the tables as one step says. */
  class Site {
    var users: seq<User>
    var codes: seq<Code>
    ghost var credited: real
    ghost var zeroed: real

    ghost function Value(): State
      reads this
    {
      State(users, codes, credited, zeroed)
    }

    constructor (count: nat)
      ensures Value() == Init(count)
    {
      users, codes, credited, zeroed := seq(count, _ => User(0.0, false)), [], 0.0, 0.0;
    }

    /** `add_pins`: a negative amount is refused, a missing user raises. */
    method AddPins(user: nat, amount: real)
      modifies this
      ensures Value() == Step(old(Value()), Action.AddPins(user, amount))
    {
      if amount < 0.0 || user >= |users| {
        return;
      }
      var newPins := users[user].pins + amount;
      users := users[user := users[user].(pins := newPins)];
      credited := credited + amount;
    }

    /** `generate_code`: only a seller gets here. The redirect for a package outside 1..8 does not
        return, so those packages go on with the table entry their index happens to have. */
    method GenerateCode(user: nat, package: int)
      modifies this
      ensures Value() == Step(old(Value()), Action.GenerateCode(user, package))
    {
      if user >= |users| || !users[user].seller || !HasEntry(package) {
        return;
      }
      var value, price := Entry(SILKS, package), Entry(PRICES, package);
      if !(users[user].pins < price as real) {
        users := users[user := users[user].(pins := users[user].pins - price as real)];
        codes := codes + [Code(user, package, value, price)];
      }
    }

    /** `be_seller`: a demoted seller loses all pins. */
    method BeSeller(user: nat)
      modifies this
      ensures Value() == Step(old(Value()), Action.BeSeller(user))
    {
      if user >= |users| {
        return;
      }
      if users[user].seller {
        users := users[user := users[user].(seller := false)];
        zeroed := zeroed + users[user].pins;
        users := users[user := users[user].(pins := 0.0)];
      } else {
        users := users[user := users[user].(seller := true)];
      }
    }

    method Do(a: Action)
      modifies this
      ensures Value() == Step(old(Value()), a)
    {
      match a
      case AddPins(user, amount) => AddPins(user, amount);
      case GenerateCode(user, package) => GenerateCode(user, package);
      case BeSeller(user) => BeSeller(user);
    }
  }

  /** The site after any run of actions: what the tables hold balances. */
  method Drive(count: nat, actions: seq<Action>) returns (users: seq<User>, codes: seq<Code>)
    ensures users == Run(count, actions).users && codes == Run(count, actions).codes
    ensures forall i :: 0 <= i < |users| ==> users[i].pins >= 0.0
    ensures Held(users) + Cost(codes) as real <= Run(count, actions).credited
    ensures 100 * Cost(codes) <= Silk(codes) <= 125 * Cost(codes)
  {
    hide Step;
    var site := new Site(count);
    for k := 0 to |actions|
      invariant site.Value() == Run(count, actions[..k])
      invariant fresh(site)
    {
      assert actions[..k + 1][..k] == actions[..k];
      site.Do(actions[k]);
    }
    assert actions[..|actions|] == actions;
    RunBalanced(count, actions);
    users, codes := site.users, site.codes;
  }

  function Credit(users: seq<User>, user: nat, amount: real): seq<User>
    requires user < |users|
  {
    users[user := users[user].(pins := users[user].pins + amount)]
  }

  predicate CanBuy(users: seq<User>, user: nat, package: int) {
    user < |users| && users[user].seller && HasEntry(package) && users[user].pins >= Entry(PRICES, package) as real
  }

  ghost function Held(users: seq<User>): real {
    if users == [] then 0.0 else Held(users[..|users|-1]) + users[|users|-1].pins
  }

  ghost function Cost(codes: seq<Code>): nat {
    if codes == [] then 0 else Cost(codes[..|codes|-1]) + codes[|codes|-1].cost
  }

  ghost function Silk(codes: seq<Code>): nat {
    if codes == [] then 0 else Silk(codes[..|codes|-1]) + codes[|codes|-1].silkAmount
  }

  /** Changing one balance changes the total by the difference. */
  lemma {:induction false} HeldUpdate(users: seq<User>, user: nat, pins: real, seller: bool)
    requires user < |users|
    ensures Held(users[user := User(pins, seller)]) == Held(users) + pins - users[user].pins
    decreases |users|
  {
    var n := |users| - 1;
    var after := users[user := User(pins, seller)];
    if user < n {
      HeldUpdate(users[..n], user, pins, seller);
      assert after[..n] == users[..n][user := User(pins, seller)];
    } else {
      assert after[..n] == users[..n];
    }
  }

  lemma {:induction false} NewUsersHold(count: nat)
    ensures Held(seq(count, _ => User(0.0, false))) == 0.0
  {
    if count > 0 {
      var s := seq(count, _ => User(0.0, false));
      assert s[..count - 1] == seq(count - 1, _ => User(0.0, false));
      NewUsersHold(count - 1);
    }
  }
}
