/** What each action does to each field of the tables. */
module LedgerLaws {
  import opened Ledger

  /** Nobody but `user` is touched. */
  ghost predicate OnlyUser(s: State, r: State, user: nat) {
    && |r.users| == |s.users|
    && forall i :: 0 <= i < |s.users| && i != user ==> r.users[i] == s.users[i]
  }

  /** A credit raises exactly the named user's pins by the amount, and is refused exactly when it is
      negative or nobody has that name. */
  lemma CreditRaises(s: State, user: nat, amount: real)
    ensures var r := Step(s, AddPins(user, amount));
      if amount < 0.0 || user >= |s.users| then r == s
      else
        && OnlyUser(s, r, user) && r.codes == s.codes
        && r.users[user].pins == s.users[user].pins + amount
        && r.users[user].seller == s.users[user].seller
        && r.credited == s.credited + amount && r.zeroed == s.zeroed
  {
  }

  /** What a package is worth and costs; a negative number counts from the end of the tables. */
  ghost predicate Offer(package: int, silk: nat, cost: nat) {
    || (package in {0, -9} && silk == 0 && cost == 0)
    || (package in {1, -8} && silk == 500 && cost == 5)
    || (package in {2, -7} && silk == 1000 && cost == 10)
    || (package in {3, -6} && silk == 2200 && cost == 20)
    || (package in {4, -5} && silk == 3300 && cost == 30)
    || (package in {5, -4} && silk == 5500 && cost == 50)
    || (package in {6, -3} && silk == 11500 && cost == 100)
    || (package in {7, -2} && silk == 18000 && cost == 150)
    || (package in {8, -1} && silk == 25000 && cost == 200)
  }

  lemma TablesOffer(package: int)
    ensures HasEntry(package) ==> Offer(package, Entry(SILKS, package), Entry(PRICES, package))
    ensures !HasEntry(package) ==> forall silk: nat, cost: nat :: !Offer(package, silk, cost)
    ensures forall a: nat, b: nat, c: nat, d: nat :: Offer(package, a, b) && Offer(package, c, d) ==> a == c && b == d
  {
  }

  /** A purchase is accepted exactly from a seller who has the price of a package on offer: that user's
      pins fall by the price, and one code is added with that user, package, silk and cost. */
  lemma PurchaseBuys(s: State, user: nat, package: int, silk: nat, cost: nat)
    requires Offer(package, silk, cost)
    ensures var r := Step(s, GenerateCode(user, package));
      if user < |s.users| && s.users[user].seller && s.users[user].pins >= cost as real then
        && OnlyUser(s, r, user)
        && r.users[user].pins == s.users[user].pins - cost as real && r.users[user].seller
        && r.codes == s.codes + [Code(user, package, silk, cost)]
        && r.credited == s.credited && r.zeroed == s.zeroed
      else r == s
  {
    TablesOffer(package);
  }

  lemma NothingOnOffer(s: State, user: nat, package: int)
    requires package < -9 || package > 8
    ensures Step(s, GenerateCode(user, package)) == s
  {
  }

  /** The switch makes a seller of somebody who is none, with all pins kept, and takes the role and all
      pins from a seller; nobody else and no code changes. */
  lemma SwitchSwitches(s: State, user: nat)
    ensures var r := Step(s, BeSeller(user));
      if user >= |s.users| then r == s
      else
        var u, v := s.users[user], r.users[user];
        && OnlyUser(s, r, user) && r.codes == s.codes && r.credited == s.credited
        && v.seller == !u.seller
        && (if u.seller then v.pins == 0.0 && r.zeroed == s.zeroed + u.pins
            else v.pins == u.pins && r.zeroed == s.zeroed)
  {
  }
}
