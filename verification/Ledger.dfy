/** The address ledger: what accounts own, delegate and have received, and what validating and
    applying a transaction means for it (apply.py, balance.py). */
module Ledger {
  import opened Networks
  import opened Options

  type Address = int

  const NULL_ADDRESS: Address := 0xffff_ffff_ffff_ffff_ffff_ffff_ffff_ffff_ffff_ffff

  lemma SomeAddress(s: set<Address>)
    ensures s != {} <==> exists a :: a in s
  {
    if !exists a :: a in s {
      assert forall a :: a in s ==> a in {};
      assert s <= {};
      assert s == {};
    }
  }

  /** Address sets by account; the program removes empty entries. */
  type Shares = map<Address, set<Ip>>

  type MapServers = map<Ip, Option<Address>>
  type Locators = map<Ip, Weights>

  datatype Weights = Weights(priority: int, weight: int)

  datatype Holdings = Holdings(own: set<Ip>, delegated: Shares, received: Shares, mapServers: MapServers, locators: Locators)

  datatype Account = Account(nonce: nat, balance: Holdings)

  /** The holdings of an account that owns these addresses and has done nothing yet. */
  function Owning(ips: set<Ip>): Holdings { Holdings(ips, map[], map[], map[], map[]) }

  const BLANK_ACCOUNT := Account(0, Owning({}))

  type Ledger = map<Address, Account>

  /** An address without a record reads as a blank account. */
  function At(l: Ledger, a: Address): Account { if a in l then l[a] else BLANK_ACCOUNT }

  function WithBalance(l: Ledger, a: Address, b: Holdings): Ledger { l[a := At(l, a).(balance := b)] }
  function WithNonce(l: Ledger, a: Address, n: nat): Ledger { l[a := At(l, a).(nonce := n)] }

  function NonceUsed(l: Ledger, a: Address): Ledger { WithNonce(l, a, At(l, a).nonce + 1) }

  /** The metadata of map server and locator transactions. */
  datatype MapServer = MapServer(ip: Ip, address: Option<Address>)
  datatype Locator = Locator(ip: Ip, weights: Weights)

  /** `extra` stands for time and signature values, which the ledger does not look at. */
  datatype Tx = Tx(sender: Option<Address>, nonce: nat, category: int, to: Option<Address>, net: Net,
                   mapServers: seq<MapServer>, locators: seq<Locator>, extra: int)

  datatype Error =
    | UnsignedTransaction | InvalidNonce | InvalidCategory | InsufficientBalance
    | InvalidAddress  // normalize_address on a blank recipient
    | MissingKey      // KeyError in remove_received_ips
    | ZeroField       // ValueError in set_locator: a zero is stored as no byte at all

  // ----- Validation -----

  function Validate(l: Ledger, tx: Tx): Option<Error> {
    if tx.sender == None || tx.sender == Some(NULL_ADDRESS) then Some(UnsignedTransaction)
    else
      var account := At(l, tx.sender.value);
      if tx.nonce != account.nonce then Some(InvalidNonce)
      else if tx.category < 0 || tx.category > 3 then Some(InvalidCategory)
      else if tx.category <= 1 && !(Members(tx.net) <= account.balance.own) then Some(InsufficientBalance)
      else None
  }

  predicate Moves(tx: Tx) { tx.category == 0 || tx.category == 1 }

  /** A locator record whose priority or weight cannot be read back. */
  predicate HasZeroField(tx: Tx) {
    tx.category == 3 && exists i :: 0 <= i < |tx.locators| && Unreadable(tx.locators[i].weights)
  }

  predicate Unreadable(w: Weights) { w.priority == 0 || w.weight == 0 }

  /** What validation does not check: a valid allocation or delegation without recipient cannot be
      applied, nor can a locator record with a zero field. */
  predicate Executable(tx: Tx) { (Moves(tx) ==> tx.to.Some?) && !HasZeroField(tx) }

  // ----- Map servers and locators -----

  /** A later record for an address replaces an earlier one. */
  function MapServersOf(records: seq<MapServer>): MapServers
    decreases |records|
  {
    if records == [] then map[]
    else
      var last := |records| - 1;
      MapServersOf(records[..last])[records[last].ip := records[last].address]
  }

  /** All entries share one list, so all show the weights of the last record. */
  function LocatorsOf(records: seq<Locator>): Locators {
    map r | r in records :: r.ip := records[|records| - 1].weights
  }

  /** Setting the ones clears the others. */
  function WithSettings(tx: Tx, b: Holdings): Holdings {
    if tx.category == 2 then b.(mapServers := MapServersOf(tx.mapServers), locators := map[])
    else b.(mapServers := map[], locators := LocatorsOf(tx.locators))
  }

  // ----- Effect on the shares -----

  function AddShare(m: Shares, a: Address, ips: set<Ip>): Shares {
    m[a := (if a in m then m[a] else {}) + ips]
  }

  function RemoveShare(m: Shares, a: Address, ips: set<Ip>): Shares
    requires a in m
  {
    if m[a] - ips == {} then m - {a} else m[a := m[a] - ips]
  }

  /** The delegations that touch a set of addresses, restricted to it. */
  function Affected(b: Holdings, ips: set<Ip>): Shares {
    map a | a in b.delegated && ips * b.delegated[a] != {} :: ips * b.delegated[a]
  }

  lemma IsAffected(b: Holdings, ips: set<Ip>, m: Shares)
    requires forall a :: a in m <==> a in b.delegated && ips * b.delegated[a] != {}
    requires forall a :: a in m ==> m[a] == ips * b.delegated[a]
    ensures m == Affected(b, ips)
  {
    var r := Affected(b, ips);
    assert forall a :: a in m <==> a in r;
    assert m.Keys <= r.Keys && r.Keys <= m.Keys;
    assert m.Keys == r.Keys;
    assert forall a :: a in m ==> m[a] == r[a];
  }

  /** All shares without the given parts. */
  function RemoveShares(m: Shares, parts: Shares): Shares {
    map a | a in m && (a in parts ==> m[a] - parts[a] != {}) :: if a in parts then m[a] - parts[a] else m[a]
  }

  /** Effect of an allocation or delegation of sender s on the holdings of account a. The sender's
      balance is read first and written last, so nothing that is written to the sender's record in
      between survives. */
  function Effect(tx: Tx, s: Address, to: Address, affected: Shares, a: Address, b: Holdings): Holdings
    requires a != s && a in affected ==> s in b.received
  {
    var ips := Members(tx.net);
    if a == s then
      var delegated := RemoveShares(b.delegated, affected);
      if tx.category == 0 then b.(own := b.own - ips, delegated := delegated)
      else b.(delegated := AddShare(delegated, to, ips))
    else
      var received := if a in affected then RemoveShare(b.received, s, affected[a]) else b.received;
      if a != to then b.(received := received)
      else if tx.category == 0 then b.(own := b.own + ips, received := received)
      else b.(received := AddShare(received, s, ips))
  }

  /** Every delegatee whose share is revoked has that share on record. */
  predicate SharesKnown(l: Ledger, s: Address, affected: Shares) {
    forall a | a in affected :: s in At(l, a).balance.received
  }

  /** The account a after the transaction. */
  function AccountAfter(tx: Tx, affected: Shares, a: Address, account: Account): Account
    requires tx.sender.Some? && (Moves(tx) ==> tx.to.Some?)
    requires Moves(tx) && Some(a) != tx.sender && a in affected ==> tx.sender.value in account.balance.received
  {
    Account(account.nonce + (if Some(a) == tx.sender then 1 else 0), BalanceAfter(tx, affected, a, account.balance))
  }

  function BalanceAfter(tx: Tx, affected: Shares, a: Address, b: Holdings): Holdings
    requires tx.sender.Some? && (Moves(tx) ==> tx.to.Some?)
    requires Moves(tx) && Some(a) != tx.sender && a in affected ==> tx.sender.value in b.received
  {
    if Moves(tx) then Effect(tx, tx.sender.value, tx.to.value, affected, a, b)
    else if Some(a) == tx.sender then WithSettings(tx, b)
    else b
  }

  /** The shares that an allocation or delegation revokes. */
  function Revoked(l: Ledger, tx: Tx): Shares
    requires tx.sender.Some?
  {
    if Moves(tx) then Affected(At(l, tx.sender.value).balance, Members(tx.net)) else map[]
  }

  /** The accounts that a transaction writes. */
  function Written(tx: Tx, affected: Shares): set<Address>
    requires tx.sender.Some? && (Moves(tx) ==> tx.to.Some?)
  {
    {tx.sender.value} + (if Moves(tx) then {tx.to.value} else {}) + affected.Keys
  }

  datatype Outcome = Applied(ledger: Ledger) | Failed(error: Error)

  /** Validating and applying a transaction, account by account. */
  function Apply(l: Ledger, tx: Tx): Outcome {
    match Validate(l, tx)
    case Some(e) => Failed(e)
    case None =>
      if HasZeroField(tx) then Failed(ZeroField)
      else if Moves(tx) && tx.to == None then Failed(InvalidAddress)
      else if !SharesKnown(l, tx.sender.value, Revoked(l, tx)) then Failed(MissingKey)
      else Applied(Changed(l, tx, Revoked(l, tx)))
  }

  function Changed(l: Ledger, tx: Tx, affected: Shares): Ledger
    requires tx.sender.Some? && (Moves(tx) ==> tx.to.Some?) && SharesKnown(l, tx.sender.value, affected)
  {
    map a | a in l.Keys + Written(tx, affected) :: AccountAfter(tx, affected, a, At(l, a))
  }
}
