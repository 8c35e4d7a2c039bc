/**
 The tables that hold items and coin, the transactions that write them, and the
 books: for every account the ledger's sums against what the stores hold.

 Each transaction is a function on the whole set of tables. `Database` carries it
 out statement by statement on a working copy, any statement of which may be the
 last before a crash, and either commits that function's result or changes nothing.
 */
module Stores {
  import opened Options
  import opened Sequences
  import opened Ledger
  import Coins

  type AccountId = nat
  type Purse = Coins.Purse

  /** An item stack as a caller hands it over, and as a table stores it under an owner. */
  datatype Row = Row(location: string, slot: int, item: string, count: int)
  datatype Stack = Stack(owner: nat, row: Row)

  datatype Character = Character(id: CharId, account: AccountId, wallet: Purse, bank: Purse)
  datatype Corpse = Corpse(id: nat, charId: CharId, coins: Purse)

  datatype Tables = Tables(
    nextId: CharId, characters: seq<Character>,
    inventory: seq<Stack>, vault: seq<Stack>, shared: seq<Stack>,
    events: seq<EventRow>, corpses: seq<Corpse>, corpseItems: seq<Stack>)

  const EMPTY_PURSE: Purse := [0, 0, 0, 0]

  // ------------------------------------------------------------------ the books

  function AccountOf(cs: seq<Character>, id: CharId): Option<AccountId> {
    if cs == [] then None
    else if cs[0].id == id then Some(cs[0].account)
    else AccountOf(cs[1..], id)
  }

  function OfAccount(cs: seq<Character>, a: AccountId): nat -> bool {
    (id: nat) => AccountOf(cs, id) == Some(a)
  }

  /** How many of an item the stacks of the selected owners hold. */
  function Count(stacks: seq<Stack>, sel: nat -> bool, item: string): int {
    if stacks == [] then 0
    else
      (if sel(stacks[0].owner) && stacks[0].row.item == item then stacks[0].row.count else 0)
      + Count(stacks[1..], sel, item)
  }

  function Owner(o: nat): nat -> bool {
    (x: nat) => x == o
  }

  function Anyone(): nat -> bool {
    (x: nat) => true
  }

  /** What an account holds of an item: its characters' inventories and vaults, and its shared vault. */
  function HeldItem(t: Tables, a: AccountId, item: string): int {
    Count(t.inventory, OfAccount(t.characters, a), item)
    + Count(t.vault, OfAccount(t.characters, a), item)
    + Count(t.shared, Owner(a), item)
  }

  function CoinsOf(cs: seq<Character>, a: AccountId): int {
    if cs == [] then 0
    else
      (if cs[0].account == a then Coins.Value(cs[0].wallet) + Coins.Value(cs[0].bank) else 0)
      + CoinsOf(cs[1..], a)
  }

  function RowsOfItem(cs: seq<Character>, a: AccountId, item: string): Key -> bool {
    (k: Key) => AccountOf(cs, k.charId) == Some(a) && k.item == Some(item)
  }

  function RowsOfAccount(cs: seq<Character>, a: AccountId): Key -> bool {
    (k: Key) => AccountOf(cs, k.charId) == Some(a)
  }

  function LedgerItem(t: Tables, a: AccountId, item: string): int {
    Over(t.events, RowsOfItem(t.characters, a, item), Delta)
  }

  function LedgerCoin(t: Tables, a: AccountId): int {
    Over(t.events, RowsOfAccount(t.characters, a), Copper)
  }

  ghost predicate Balanced(t: Tables) {
    && (forall a: AccountId, item: string :: LedgerItem(t, a, item) == HeldItem(t, a, item))
    && (forall a: AccountId :: LedgerCoin(t, a) == CoinsOf(t.characters, a))
  }

  /** Ids are handed out in order and never again: a ledger row may outlive its character, never precede it. */
  predicate WellFormed(t: Tables) {
    && (forall i, j :: 0 <= i < j < |t.characters| ==> t.characters[i].id != t.characters[j].id)
    && (forall c :: c in t.characters ==> c.id < t.nextId)
    && (forall e :: e in t.events ==> e.charId < t.nextId)
    && (forall s :: s in t.inventory + t.vault ==> s.owner < t.nextId)
  }

  // ----------------------------------------------------------- the table writes

  function Owned(o: nat, rows: seq<Row>): (r: seq<Stack>)
    ensures |r| == |rows| && forall i :: 0 <= i < |r| ==> r[i] == Stack(o, rows[i])
  {
    if rows == [] then [] else [Stack(o, rows[0])] + Owned(o, rows[1..])
  }

  function Except(stacks: seq<Stack>, o: nat): (r: seq<Stack>)
    ensures forall s :: s in r <==> s in stacks && s.owner != o
  {
    if stacks == [] then []
    else if stacks[0].owner == o then Except(stacks[1..], o)
    else [stacks[0]] + Except(stacks[1..], o)
  }

  /** Delete an owner's rows and insert the new ones. */
  function Replaced(stacks: seq<Stack>, o: nat, rows: seq<Row>): seq<Stack> {
    Except(stacks, o) + Owned(o, rows)
  }

  function WithPurses(cs: seq<Character>, id: CharId, wallet: Option<Purse>, bank: Option<Purse>): (r: seq<Character>)
    ensures |r| == |cs|
    ensures forall i :: 0 <= i < |cs| ==> r[i].id == cs[i].id && r[i].account == cs[i].account
  {
    if cs == [] then []
    else
      var c := cs[0];
      [if c.id != id then c
       else c.(wallet := if wallet.Some? then wallet.value else c.wallet,
               bank := if bank.Some? then bank.value else c.bank)]
      + WithPurses(cs[1..], id, wallet, bank)
  }

  /** One connection's dirty stores; an absent one is left alone. */
  datatype Stored = Stored(
    inventory: Option<seq<Row>>, wallet: Option<Purse>, bank: Option<Purse>,
    vault: Option<seq<Row>>, shared: Option<seq<Row>>)

  function ReplacedIf(stacks: seq<Stack>, o: nat, rows: Option<seq<Row>>): seq<Stack> {
    if rows.Some? then Replaced(stacks, o, rows.value) else stacks
  }

  /** `save_stores_atomic`: every dirty store of one connection, and the rows that describe the change. */
  function SaveStores(t: Tables, c: CharId, a: AccountId, s: Stored, events: seq<EventRow>): Tables {
    t.(inventory := ReplacedIf(t.inventory, c, s.inventory),
       characters := WithPurses(t.characters, c, s.wallet, s.bank),
       vault := ReplacedIf(t.vault, c, s.vault),
       shared := ReplacedIf(t.shared, a, s.shared),
       events := t.events + events)
  }

  function Carried(rows: seq<Row>, wallet: Purse): Stored {
    Stored(Some(rows), Some(wallet), None, None, None)
  }

  const NOTHING: Stored := Stored(None, None, None, None, None)

  /** One side of a trade, with the rows queued for it. */
  datatype Side = Side(charId: CharId, rows: seq<Row>, wallet: Purse, events: seq<EventRow>)

  function TradeSide(t: Tables, s: Side): Tables {
    SaveStores(t, s.charId, 0, Carried(s.rows, s.wallet), s.events)
  }

  /** `commit_trade`: both inventories and wallets in one transaction. */
  function CommitTrade(t: Tables, a: Side, b: Side): Tables {
    TradeSide(TradeSide(t, a), b)
  }

  /** `save_corpse`: the body and, when it strips, the owner emptied. */
  function SaveCorpse(t: Tables, corpse: Corpse, items: seq<Row>, strip: bool, events: seq<EventRow>): Tables {
    var stripped := SaveStores(t, corpse.charId, 0, if strip then Carried([], EMPTY_PURSE) else NOTHING, events);
    stripped.(corpses := t.corpses + [corpse], corpseItems := t.corpseItems + Owned(corpse.id, items))
  }

  function CorpsesExcept(cs: seq<Corpse>, id: nat): seq<Corpse> {
    if cs == [] then []
    else if cs[0].id == id then CorpsesExcept(cs[1..], id)
    else [cs[0]] + CorpsesExcept(cs[1..], id)
  }

  function CorpsesWith(cs: seq<Corpse>, id: nat, coins: Purse): seq<Corpse> {
    if cs == [] then []
    else [if cs[0].id == id then cs[0].(coins := coins) else cs[0]] + CorpsesWith(cs[1..], id, coins)
  }

  /** `apply_corpse_loot`: the looter's stores and the body, which goes when it is empty. */
  function LootCorpse(t: Tables, looter: Side, corpseId: nat, items: seq<Row>, coins: Purse, delete: bool): Tables {
    var looted := TradeSide(t, looter);
    if delete then
      looted.(corpses := CorpsesExcept(t.corpses, corpseId), corpseItems := Except(t.corpseItems, corpseId))
    else
      looted.(corpses := CorpsesWith(t.corpses, corpseId, coins),
        corpseItems := Replaced(t.corpseItems, corpseId, items))
  }

  const RAGGED_SHIRT := "res://data/loot/items/ragged_shirt.tres"
  const RAGGED_PANTS := "res://data/loot/items/ragged_pants.tres"

  function TraineeWeapon(cls: string): Option<string> {
    if cls in ["Warrior", "Paladin", "Shadow Knight", "Bard", "Ranger", "Witch Hunter"] then
      Some("res://data/loot/items/trainees_sword.tres")
    else if cls in ["Rogue", "Blood Mage"] then Some("res://data/loot/items/trainees_knife.tres")
    else if cls in ["Cleric", "Monk", "Druid"] then Some("res://data/loot/items/trainees_club.tres")
    else if cls in ["Shaman", "Beast Master"] then Some("res://data/loot/items/trainees_spear.tres")
    else if cls in ["Magician", "Wizard", "Sorcerer", "Necromancer", "Enchanter"] then
      Some("res://data/loot/items/trainees_staff.tres")
    else None
  }

  /** The worn kit a class is born with: main hand, chest and legs; none for a class off the list. */
  function StarterKit(cls: string): Option<seq<Row>> {
    var weapon := TraineeWeapon(cls);
    if weapon.None? then None
    else Some([Row("equip", 0, weapon.value, 1), Row("equip", 3, RAGGED_SHIRT, 1), Row("equip", 4, RAGGED_PANTS, 1)])
  }

  function StarterEvent(c: CharId, now: int, row: Row): EventRow {
    EventRow(now, c, "starter", Some(row.item), 1, 1, 0, Some("starting kit"))
  }

  function StarterEvents(c: CharId, now: int, kit: seq<Row>): (r: seq<EventRow>)
    ensures |r| == |kit| && forall i :: 0 <= i < |r| ==> r[i] == StarterEvent(c, now, kit[i])
  {
    if kit == [] then [] else [StarterEvent(c, now, kit[0])] + StarterEvents(c, now, kit[1..])
  }

  /** Each piece of the kit has its row, in order: one of it gained, and no coin, for the starting kit. */
  lemma StarterRowsSay(c: CharId, now: int, kit: seq<Row>, i: nat)
    requires i < |kit|
    ensures
      var e := StarterEvents(c, now, kit)[i];
      && e.at == now && e.charId == c && e.action == "starter" && e.item == Some(kit[i].item)
      && e.count == 1 && e.delta == 1 && e.copper == 0 && e.detail == Some("starting kit")
  {
  }

  /** `create_character`: a new id, an empty purse, the kit worn and its rows written. */
  function CreateCharacter(t: Tables, a: AccountId, kit: seq<Row>, now: int): Tables {
    var c := t.nextId;
    t.(nextId := c + 1,
       characters := t.characters + [Character(c, a, EMPTY_PURSE, EMPTY_PURSE)],
       inventory := t.inventory + Owned(c, kit),
       events := t.events + StarterEvents(c, now, kit))
  }

  function FoldEvents(t: Tables, cutoff: int, keys: seq<Key>): Tables {
    t.(events := Folded(t.events, cutoff, keys))
  }

  // ------------------------------------------------------------- counting stacks

  lemma {:induction false} CountConcat(a: seq<Stack>, b: seq<Stack>, sel: nat -> bool, item: string)
    ensures Count(a + b, sel, item) == Count(a, sel, item) + Count(b, sel, item)
  {
    if a == [] {
      assert a + b == b;
    } else {
      assert (a + b)[1..] == a[1..] + b;
      CountConcat(a[1..], b, sel, item);
    }
  }

  lemma {:induction false} CountExcept(stacks: seq<Stack>, o: nat, sel: nat -> bool, item: string)
    ensures Count(Except(stacks, o), sel, item)
         == Count(stacks, sel, item) - if sel(o) then Count(stacks, Owner(o), item) else 0
  {
    if stacks != [] {
      CountExcept(stacks[1..], o, sel, item);
      var rest := Except(stacks[1..], o);
      assert ([stacks[0]] + rest)[1..] == rest;
    }
  }

  /** How many of an item a batch of rows holds. */
  function CountRows(rows: seq<Row>, item: string): int {
    if rows == [] then 0 else (if rows[0].item == item then rows[0].count else 0) + CountRows(rows[1..], item)
  }

  lemma {:induction false} CountOwned(o: nat, rows: seq<Row>, sel: nat -> bool, item: string)
    ensures Count(Owned(o, rows), sel, item) == if sel(o) then CountRows(rows, item) else 0
  {
    if rows != [] {
      assert Owned(o, rows)[1..] == Owned(o, rows[1..]);
      CountOwned(o, rows[1..], sel, item);
    }
  }

  /** What replacing an owner's rows adds to that owner's holding of an item. */
  function Change(stacks: seq<Stack>, o: nat, rows: Option<seq<Row>>, item: string): int {
    if rows.Some? then CountRows(rows.value, item) - Count(stacks, Owner(o), item) else 0
  }

  lemma CountReplaced(stacks: seq<Stack>, o: nat, rows: Option<seq<Row>>, sel: nat -> bool, item: string)
    ensures Count(ReplacedIf(stacks, o, rows), sel, item)
         == Count(stacks, sel, item) + if sel(o) then Change(stacks, o, rows, item) else 0
  {
    if rows.Some? {
      CountExcept(stacks, o, sel, item);
      CountOwned(o, rows.value, sel, item);
      CountConcat(Except(stacks, o), Owned(o, rows.value), sel, item);
    }
  }

  lemma {:induction false} PursesKeepAccounts(cs: seq<Character>, id: CharId, w: Option<Purse>, b: Option<Purse>,
      x: CharId)
    ensures AccountOf(WithPurses(cs, id, w, b), x) == AccountOf(cs, x)
  {
    if cs != [] {
      PursesKeepAccounts(cs[1..], id, w, b, x);
    }
  }

  function CharacterOf(cs: seq<Character>, id: CharId): Option<Character> {
    if cs == [] then None else if cs[0].id == id then Some(cs[0]) else CharacterOf(cs[1..], id)
  }

  /** The purses looked up after a write: those handed over where dirty, the old ones where not, nobody else's moved. */
  lemma {:induction false} PursesWritten(cs: seq<Character>, id: CharId, w: Option<Purse>, b: Option<Purse>, x: CharId)
    ensures CharacterOf(cs, x).Some? <==> AccountOf(cs, x).Some?
    ensures CharacterOf(WithPurses(cs, id, w, b), x).Some? <==> CharacterOf(cs, x).Some?
    ensures x != id ==> CharacterOf(WithPurses(cs, id, w, b), x) == CharacterOf(cs, x)
    ensures x == id && CharacterOf(cs, id).Some? ==>
      var was, now := CharacterOf(cs, id).value, CharacterOf(WithPurses(cs, id, w, b), id).value;
      && now.id == was.id && now.account == was.account
      && (w.Some? ==> now.wallet == w.value) && (w.None? ==> now.wallet == was.wallet)
      && (b.Some? ==> now.bank == b.value) && (b.None? ==> now.bank == was.bank)
  {
    if cs != [] {
      PursesWritten(cs[1..], id, w, b, x);
      assert WithPurses(cs, id, w, b)[1..] == WithPurses(cs[1..], id, w, b);
    }
  }

  /** What a purse gains by a write, if it is written at all. */
  function PurseGain(was: Purse, now: Option<Purse>): int {
    if now.Some? then Coins.Value(now.value) - Coins.Value(was) else 0
  }

  /** What a character gains by a write: what its wallet gains and what its bank gains. */
  function CoinChange(cs: seq<Character>, id: CharId, w: Option<Purse>, b: Option<Purse>): int {
    var c := CharacterOf(cs, id);
    if c.None? then 0 else PurseGain(c.value.wallet, w) + PurseGain(c.value.bank, b)
  }

  lemma {:induction false} AbsentHasNoAccount(cs: seq<Character>, id: CharId)
    ensures AccountOf(cs, id).None? <==> forall c :: c in cs ==> c.id != id
  {
    if cs != [] {
      AbsentHasNoAccount(cs[1..], id);
      assert cs == [cs[0]] + cs[1..];
    }
  }

  lemma {:induction false} UntouchedPurses(cs: seq<Character>, id: CharId, w: Option<Purse>, b: Option<Purse>)
    requires forall c :: c in cs ==> c.id != id
    ensures WithPurses(cs, id, w, b) == cs
  {
    if cs != [] {
      UntouchedPurses(cs[1..], id, w, b);
    }
  }

  lemma {:induction false} CoinsAfter(cs: seq<Character>, id: CharId, w: Option<Purse>, b: Option<Purse>, a: AccountId)
    requires forall i, j :: 0 <= i < j < |cs| ==> cs[i].id != cs[j].id
    ensures CoinsOf(WithPurses(cs, id, w, b), a)
         == CoinsOf(cs, a) + if AccountOf(cs, id) == Some(a) then CoinChange(cs, id, w, b) else 0
  {
    if cs != [] {
      var rest := WithPurses(cs[1..], id, w, b);
      assert WithPurses(cs, id, w, b)[1..] == rest;
      if cs[0].id == id {
        UntouchedPurses(cs[1..], id, w, b);
      } else {
        CoinsAfter(cs[1..], id, w, b, a);
      }
    }
  }

  // ------------------------------------------------- the books and the writes

  function ForItem(item: string): Key -> bool {
    (k: Key) => k.item == Some(item)
  }

  function AnyKey(): Key -> bool {
    (k: Key) => true
  }

  /** Rows stamped with one character, as a connection's queue is. */
  predicate StampedBy(es: seq<EventRow>, c: CharId) {
    forall e :: e in es ==> e.charId == c
  }

  /** Stamped rows land on the account of their character and on no other. */
  lemma StampedRowsLand(cs: seq<Character>, es: seq<EventRow>, c: CharId, a: AccountId, item: string)
    requires StampedBy(es, c)
    ensures Over(es, RowsOfItem(cs, a, item), Delta)
         == if AccountOf(cs, c) == Some(a) then Over(es, ForItem(item), Delta) else 0
    ensures Over(es, RowsOfAccount(cs, a), Copper)
         == if AccountOf(cs, c) == Some(a) then Over(es, AnyKey(), Copper) else 0
  {
    if AccountOf(cs, c) == Some(a) {
      OverSame(es, RowsOfItem(cs, a, item), ForItem(item), Delta);
      OverSame(es, RowsOfAccount(cs, a), AnyKey(), Copper);
    } else {
      OverNone(es, RowsOfItem(cs, a, item), Delta);
      OverNone(es, RowsOfAccount(cs, a), Copper);
    }
  }

  /** The change a save makes to its account's holding of an item. */
  function StoreChange(t: Tables, c: CharId, a: AccountId, s: Stored, item: string): int {
    Change(t.inventory, c, s.inventory, item) + Change(t.vault, c, s.vault, item) + Change(t.shared, a, s.shared, item)
  }

  /** What a caller owes the books: rows that sum to the change it writes. */
  ghost predicate RowsMatch(t: Tables, c: CharId, a: AccountId, s: Stored, events: seq<EventRow>) {
    && (forall item: string :: Over(events, ForItem(item), Delta) == StoreChange(t, c, a, s, item))
    && Over(events, AnyKey(), Copper) == CoinChange(t.characters, c, s.wallet, s.bank)
  }

  /** A save moves both sides of the books of its own account, and of no other. */
  lemma SaveMovesTheBooks(t: Tables, c: CharId, a: AccountId, s: Stored, events: seq<EventRow>, x: AccountId,
      item: string)
    requires WellFormed(t) && StampedBy(events, c)
    requires AccountOf(t.characters, c) == Some(a) || (s.shared.None? && AccountOf(t.characters, c).Some?)
    ensures
      var t' := SaveStores(t, c, a, s, events);
      var mine := AccountOf(t.characters, c) == Some(x);
      && LedgerItem(t', x, item) == LedgerItem(t, x, item) + (if mine then Over(events, ForItem(item), Delta) else 0)
      && HeldItem(t', x, item) == HeldItem(t, x, item) + (if mine then StoreChange(t, c, a, s, item) else 0)
      && LedgerCoin(t', x) == LedgerCoin(t, x) + (if mine then Over(events, AnyKey(), Copper) else 0)
      && CoinsOf(t'.characters, x) == CoinsOf(t.characters, x)
           + (if mine then CoinChange(t.characters, c, s.wallet, s.bank) else 0)
  {
    var cs, cs' := t.characters, WithPurses(t.characters, c, s.wallet, s.bank);
    var t' := SaveStores(t, c, a, s, events);
    forall id: CharId
      ensures AccountOf(cs', id) == AccountOf(cs, id)
    {
      PursesKeepAccounts(cs, c, s.wallet, s.bank, id);
    }
    StampedRowsLand(cs, events, c, x, item);
    OverConcat(t.events, events, RowsOfItem(cs, x, item), Delta);
    OverConcat(t.events, events, RowsOfAccount(cs, x), Copper);
    OverSame(t'.events, RowsOfItem(cs', x, item), RowsOfItem(cs, x, item), Delta);
    OverSame(t'.events, RowsOfAccount(cs', x), RowsOfAccount(cs, x), Copper);
    SameOwners(t'.inventory, OfAccount(cs', x), OfAccount(cs, x), item);
    SameOwners(t'.vault, OfAccount(cs', x), OfAccount(cs, x), item);
    CountReplaced(t.inventory, c, s.inventory, OfAccount(cs, x), item);
    CountReplaced(t.vault, c, s.vault, OfAccount(cs, x), item);
    CountReplaced(t.shared, a, s.shared, Owner(x), item);
    CoinsAfter(cs, c, s.wallet, s.bank, x);
  }

  lemma {:induction false} SameOwners(stacks: seq<Stack>, f: nat -> bool, g: nat -> bool, item: string)
    requires forall s :: s in stacks ==> f(s.owner) == g(s.owner)
    ensures Count(stacks, f, item) == Count(stacks, g, item)
  {
    if stacks != [] {
      assert stacks[0] in stacks && forall s :: s in stacks[1..] ==> s in stacks;
      SameOwners(stacks[1..], f, g, item);
    }
  }

  lemma SaveStaysWellFormed(t: Tables, c: CharId, a: AccountId, s: Stored, events: seq<EventRow>)
    requires WellFormed(t) && StampedBy(events, c) && AccountOf(t.characters, c).Some?
    ensures WellFormed(SaveStores(t, c, a, s, events))
  {
    AbsentHasNoAccount(t.characters, c);
    assert c < t.nextId;
    PursesKeepIds(t.characters, c, s.wallet, s.bank, t.nextId);
  }

  lemma PursesKeepIds(cs: seq<Character>, c: CharId, w: Option<Purse>, b: Option<Purse>, nextId: nat)
    requires forall x :: x in cs ==> x.id < nextId
    ensures forall x :: x in WithPurses(cs, c, w, b) ==> x.id < nextId
  {
    var cs' := WithPurses(cs, c, w, b);
    forall x | x in cs'
      ensures x.id < nextId
    {
      var i :| 0 <= i < |cs'| && cs'[i] == x;
      assert cs[i] in cs;
    }
  }

  /**
   A save keeps balanced books balanced if and only if the rows written with it
   sum to the change it makes, item by item and in copper.
   */
  lemma SaveBalancesIffRowsMatch(t: Tables, c: CharId, a: AccountId, s: Stored, events: seq<EventRow>)
    requires WellFormed(t) && Balanced(t) && StampedBy(events, c)
    requires AccountOf(t.characters, c) == Some(a) || (s.shared.None? && AccountOf(t.characters, c).Some?)
    ensures Balanced(SaveStores(t, c, a, s, events)) <==> RowsMatch(t, c, a, s, events)
  {
    var t' := SaveStores(t, c, a, s, events);
    var mine := AccountOf(t.characters, c).value;
    forall x: AccountId, item: string
      ensures LedgerItem(t', x, item) == HeldItem(t', x, item)
        <==> (x == mine ==> Over(events, ForItem(item), Delta) == StoreChange(t, c, a, s, item))
    {
      SaveMovesTheBooks(t, c, a, s, events, x, item);
    }
    forall x: AccountId
      ensures LedgerCoin(t', x) == CoinsOf(t'.characters, x)
        <==> (x == mine ==> Over(events, AnyKey(), Copper) == CoinChange(t.characters, c, s.wallet, s.bank))
    {
      SaveMovesTheBooks(t, c, a, s, events, x, "");
    }
    if Balanced(t') {
      forall item: string
        ensures Over(events, ForItem(item), Delta) == StoreChange(t, c, a, s, item)
      {
        assert LedgerItem(t', mine, item) == HeldItem(t', mine, item);
      }
      assert LedgerCoin(t', mine) == CoinsOf(t'.characters, mine);
    }
  }

  // -------------------------------------------------------------------- trades

  ghost predicate SideMatches(t: Tables, s: Side) {
    && AccountOf(t.characters, s.charId).Some?
    && StampedBy(s.events, s.charId)
    && RowsMatch(t, s.charId, 0, Carried(s.rows, s.wallet), s.events)
  }

  /** Writing one character's side leaves the other's obligation as it was. */
  lemma OtherSideStillMatches(t: Tables, a: Side, b: Side)
    requires a.charId != b.charId && SideMatches(t, b)
    ensures SideMatches(TradeSide(t, a), b)
  {
    var t' := TradeSide(t, a);
    var mine, theirs := Carried(a.rows, a.wallet), Carried(b.rows, b.wallet);
    PursesKeepAccounts(t.characters, a.charId, mine.wallet, mine.bank, b.charId);
    PursesWritten(t.characters, a.charId, mine.wallet, mine.bank, b.charId);
    forall item: string
      ensures Over(b.events, ForItem(item), Delta) == StoreChange(t', b.charId, 0, theirs, item)
    {
      CountReplaced(t.inventory, a.charId, mine.inventory, Owner(b.charId), item);
      assert Over(b.events, ForItem(item), Delta) == StoreChange(t, b.charId, 0, theirs, item);
    }
  }

  /** A side whose rows match keeps the tables well formed and the books balanced. */
  lemma SideKeepsTheBooks(t: Tables, s: Side)
    requires WellFormed(t) && Balanced(t) && SideMatches(t, s)
    ensures WellFormed(TradeSide(t, s)) && Balanced(TradeSide(t, s))
  {
    var stored := Carried(s.rows, s.wallet);
    SaveStaysWellFormed(t, s.charId, 0, stored, s.events);
    SaveBalancesIffRowsMatch(t, s.charId, 0, stored, s.events);
  }

  /** A trade between two characters keeps the books when each side's rows match what it writes. */
  lemma TradeKeepsTheBooks(t: Tables, a: Side, b: Side)
    requires WellFormed(t) && Balanced(t) && a.charId != b.charId
    requires SideMatches(t, a) && SideMatches(t, b)
    ensures WellFormed(CommitTrade(t, a, b)) && Balanced(CommitTrade(t, a, b))
  {
    SideKeepsTheBooks(t, a);
    OtherSideStillMatches(t, a, b);
    SideKeepsTheBooks(TradeSide(t, a), b);
  }

  // ----------------------------------------------------- everything there is

  /** Every stack of an item anywhere: inventories, vaults and bodies. */
  function Everywhere(t: Tables, item: string): int {
    Count(t.inventory, Anyone(), item) + Count(t.vault, Anyone(), item)
    + Count(t.shared, Anyone(), item) + Count(t.corpseItems, Anyone(), item)
  }

  lemma SideMovesItems(t: Tables, s: Side, item: string)
    requires SideMatches(t, s)
    ensures Everywhere(TradeSide(t, s), item) == Everywhere(t, item) + Over(s.events, ForItem(item), Delta)
  {
    var stored := Carried(s.rows, s.wallet);
    CountReplaced(t.inventory, s.charId, stored.inventory, Anyone(), item);
    assert Over(s.events, ForItem(item), Delta) == StoreChange(t, s.charId, 0, stored, item);
  }

  /** A trade neither duplicates nor loses an item exactly when the two sides' rows for it cancel. */
  lemma TradeConservesIffRowsCancel(t: Tables, a: Side, b: Side, item: string)
    requires a.charId != b.charId && SideMatches(t, a) && SideMatches(t, b)
    ensures Everywhere(CommitTrade(t, a, b), item) == Everywhere(t, item)
      <==> Over(a.events, ForItem(item), Delta) + Over(b.events, ForItem(item), Delta) == 0
  {
    SideMovesItems(t, a, item);
    OtherSideStillMatches(t, a, b);
    SideMovesItems(TradeSide(t, a), b, item);
  }

  /** A death that strips its owner moves items and makes none, exactly when the body gets what the owner carried. */
  lemma DeathConservesIffBodyGetsAll(t: Tables, corpse: Corpse, items: seq<Row>, events: seq<EventRow>, item: string)
    ensures Everywhere(SaveCorpse(t, corpse, items, true, events), item) == Everywhere(t, item)
      <==> CountRows(items, item) == Count(t.inventory, Owner(corpse.charId), item)
  {
    CountReplaced(t.inventory, corpse.charId, Some([]), Anyone(), item);
    CountOwned(corpse.id, items, Anyone(), item);
    CountConcat(t.corpseItems, Owned(corpse.id, items), Anyone(), item);
  }

  /** Looting a body moves items and makes none, exactly when looter and body together hold what they held. */
  lemma LootConservesIffTogetherTheSame(t: Tables, looter: Side, corpseId: nat, items: seq<Row>, coins: Purse,
      delete: bool, item: string)
    ensures Everywhere(LootCorpse(t, looter, corpseId, items, coins, delete), item) == Everywhere(t, item)
      <==> (CountRows(looter.rows, item) + (if delete then 0 else CountRows(items, item))
            == Count(t.inventory, Owner(looter.charId), item) + Count(t.corpseItems, Owner(corpseId), item))
  {
    CountReplaced(t.inventory, looter.charId, Some(looter.rows), Anyone(), item);
    CountReplaced(t.corpseItems, corpseId, Some(items), Anyone(), item);
    CountExcept(t.corpseItems, corpseId, Anyone(), item);
  }

  // ------------------------------------------------------------- a new character

  lemma {:induction false} AccountOfNewcomer(cs: seq<Character>, c: Character, id: CharId)
    ensures AccountOf(cs + [c], id)
         == if AccountOf(cs, id).Some? then AccountOf(cs, id) else if id == c.id then Some(c.account) else None
  {
    if cs == [] {
      assert cs + [c] == [c];
    } else {
      assert (cs + [c])[1..] == cs[1..] + [c];
      AccountOfNewcomer(cs[1..], c, id);
    }
  }

  lemma {:induction false} CoinsOfNewcomer(cs: seq<Character>, c: Character, a: AccountId)
    requires Coins.Value(c.wallet) + Coins.Value(c.bank) == 0
    ensures CoinsOf(cs + [c], a) == CoinsOf(cs, a)
  {
    if cs == [] {
      assert cs + [c] == [c];
    } else {
      assert (cs + [c])[1..] == cs[1..] + [c];
      CoinsOfNewcomer(cs[1..], c, a);
    }
  }

  predicate OneEach(kit: seq<Row>) {
    forall r :: r in kit ==> r.count == 1
  }

  lemma {:induction false} KitRowsMatch(c: CharId, now: int, kit: seq<Row>, item: string)
    requires OneEach(kit)
    ensures Over(StarterEvents(c, now, kit), ForItem(item), Delta) == CountRows(kit, item)
    ensures Over(StarterEvents(c, now, kit), AnyKey(), Copper) == 0
  {
    if kit != [] {
      assert kit[0] in kit && forall r :: r in kit[1..] ==> r in kit;
      assert StarterEvents(c, now, kit)[1..] == StarterEvents(c, now, kit[1..]);
      KitRowsMatch(c, now, kit[1..], item);
    }
  }

  /** A new character starts with its books balanced: its kit against its rows, and no coin either side. */
  lemma NewCharacterIsBalanced(t: Tables, a: AccountId, kit: seq<Row>, now: int)
    requires WellFormed(t) && Balanced(t) && OneEach(kit)
    ensures WellFormed(CreateCharacter(t, a, kit, now)) && Balanced(CreateCharacter(t, a, kit, now))
  {
    var c, t' := t.nextId, CreateCharacter(t, a, kit, now);
    var cs, cs', rows := t.characters, t'.characters, StarterEvents(t.nextId, now, kit);
    AbsentHasNoAccount(cs, c);
    forall id: CharId
      ensures AccountOf(cs', id) == if id == c then Some(a) else AccountOf(cs, id)
    {
      AccountOfNewcomer(cs, Character(c, a, EMPTY_PURSE, EMPTY_PURSE), id);
    }
    forall x: AccountId, item: string
      ensures LedgerItem(t', x, item) == HeldItem(t', x, item)
    {
      assert LedgerItem(t, x, item) == HeldItem(t, x, item);
      KitBalances(t, a, kit, now, x, item);
    }
    forall x: AccountId
      ensures LedgerCoin(t', x) == CoinsOf(cs', x)
    {
      OverConcat(t.events, rows, RowsOfAccount(cs', x), Copper);
      OverSame(t.events, RowsOfAccount(cs', x), RowsOfAccount(cs, x), Copper);
      StampedRowsLand(cs', rows, c, x, "");
      KitRowsMatch(c, now, kit, "");
      EmptyPurseIsWorthNothing();
      CoinsOfNewcomer(cs, Character(c, a, EMPTY_PURSE, EMPTY_PURSE), x);
    }
  }

  /** The kit adds to both sides of one account's books alike, in one item. */
  lemma KitBalances(t: Tables, a: AccountId, kit: seq<Row>, now: int, x: AccountId, item: string)
    requires WellFormed(t) && OneEach(kit) && LedgerItem(t, x, item) == HeldItem(t, x, item)
    requires forall id: CharId ::
      AccountOf(CreateCharacter(t, a, kit, now).characters, id) ==
        if id == t.nextId then Some(a) else AccountOf(t.characters, id)
    ensures LedgerItem(CreateCharacter(t, a, kit, now), x, item) == HeldItem(CreateCharacter(t, a, kit, now), x, item)
  {
    var c, t' := t.nextId, CreateCharacter(t, a, kit, now);
    var cs, cs', rows := t.characters, t'.characters, StarterEvents(t.nextId, now, kit);
    AbsentHasNoAccount(cs, c);
    OverConcat(t.events, rows, RowsOfItem(cs', x, item), Delta);
    OverSame(t.events, RowsOfItem(cs', x, item), RowsOfItem(cs, x, item), Delta);
    StampedRowsLand(cs', rows, c, x, item);
    KitRowsMatch(c, now, kit, item);
    CountConcat(t.inventory, Owned(c, kit), OfAccount(cs', x), item);
    CountOwned(c, kit, OfAccount(cs', x), item);
    assert forall s :: s in t.inventory || s in t.vault ==> s in t.inventory + t.vault;
    SameOwners(t.inventory, OfAccount(cs', x), OfAccount(cs, x), item);
    SameOwners(t.vault, OfAccount(cs', x), OfAccount(cs, x), item);
  }

  lemma EmptyPurseIsWorthNothing()
    ensures Coins.Value(EMPTY_PURSE) == 0
  {
    Coins.WorthNothing(EMPTY_PURSE, 4);
  }

  /** The fold changes neither side of any account's books. */
  lemma FoldKeepsTheBooks(t: Tables, cutoff: int, keys: seq<Key>)
    requires WellFormed(t) && GroupsOf(keys, t.events, cutoff)
    ensures WellFormed(FoldEvents(t, cutoff, keys))
    ensures Balanced(FoldEvents(t, cutoff, keys)) <==> Balanced(t)
  {
    var t' := FoldEvents(t, cutoff, keys);
    forall x: AccountId, item: string
      ensures LedgerItem(t', x, item) == LedgerItem(t, x, item)
      ensures HeldItem(t', x, item) == HeldItem(t, x, item)
    {
      FoldKeepsBalances(t.events, cutoff, keys, RowsOfItem(t.characters, x, item), Delta);
    }
    forall x: AccountId
      ensures LedgerCoin(t', x) == LedgerCoin(t, x)
    {
      FoldKeepsBalances(t.events, cutoff, keys, RowsOfAccount(t.characters, x), Copper);
    }
    forall e | e in t'.events
      ensures e.charId < t'.nextId
    {
      if e !in t.events {
        assert KeyOf(e) in keys;
        var source :| source in Before(t.events, cutoff) && KeyOf(source) == KeyOf(e);
      }
    }
  }

  // ---------------------------------------------------------------------- runs

  datatype Tx =
    | TxSave(charId: CharId, account: AccountId, stored: Stored, events: seq<EventRow>)
    | TxTrade(a: Side, b: Side)
    | TxDeath(corpse: Corpse, items: seq<Row>, strip: bool, events: seq<EventRow>)
    | TxLoot(looter: Side, corpseId: nat, left: seq<Row>, coins: Purse, delete: bool)
    | TxCreate(newAccount: AccountId, cls: string, now: int)
    | TxFold(cutoff: int, keys: seq<Key>)

  /** What each transaction's caller owes: rows of its own that sum to the change it writes. */
  ghost predicate Honest(t: Tables, tx: Tx) {
    match tx
    case TxSave(c, a, s, events) =>
      && StampedBy(events, c)
      && AccountOf(t.characters, c) == Some(a)
      && RowsMatch(t, c, a, s, events)
    case TxTrade(a, b) => a.charId != b.charId && SideMatches(t, a) && SideMatches(t, b)
    case TxDeath(corpse, _, strip, events) =>
      && StampedBy(events, corpse.charId)
      && AccountOf(t.characters, corpse.charId).Some?
      && RowsMatch(t, corpse.charId, 0, if strip then Carried([], EMPTY_PURSE) else NOTHING, events)
    case TxLoot(looter, _, _, _, _) => SideMatches(t, looter)
    case TxCreate(_, _, _) => true
    case TxFold(cutoff, keys) => GroupsOf(keys, t.events, cutoff)
  }

  function Apply(t: Tables, tx: Tx): Tables {
    match tx
    case TxSave(c, a, s, events) => SaveStores(t, c, a, s, events)
    case TxTrade(a, b) => CommitTrade(t, a, b)
    case TxDeath(corpse, items, strip, events) => SaveCorpse(t, corpse, items, strip, events)
    case TxLoot(looter, id, left, coins, delete) => LootCorpse(t, looter, id, left, coins, delete)
    case TxCreate(a, cls, now) =>
      var kit := StarterKit(cls);
      if kit.Some? then CreateCharacter(t, a, kit.value, now) else t
    case TxFold(cutoff, keys) => FoldEvents(t, cutoff, keys)
  }

  /** The books read only the stores, the characters and the rows: bodies do not enter them. */
  lemma BodiesDoNotEnterTheBooks(t: Tables, corpses: seq<Corpse>, items: seq<Stack>)
    ensures
      var t' := t.(corpses := corpses, corpseItems := items);
      (Balanced(t') <==> Balanced(t)) && (WellFormed(t') <==> WellFormed(t))
  {
    var t' := t.(corpses := corpses, corpseItems := items);
    forall x: AccountId, item: string
      ensures LedgerItem(t', x, item) == LedgerItem(t, x, item) && HeldItem(t', x, item) == HeldItem(t, x, item)
    {
    }
    assert forall x: AccountId :: LedgerCoin(t', x) == LedgerCoin(t, x);
  }

  lemma TxKeepsTheBooks(t: Tables, tx: Tx)
    requires WellFormed(t) && Balanced(t) && Honest(t, tx)
    ensures WellFormed(Apply(t, tx)) && Balanced(Apply(t, tx))
  {
    match tx
    case TxSave(c, a, s, events) =>
      SaveStaysWellFormed(t, c, a, s, events);
      SaveBalancesIffRowsMatch(t, c, a, s, events);
    case TxTrade(a, b) => TradeKeepsTheBooks(t, a, b);
    case TxDeath(corpse, items, strip, events) =>
      var s := if strip then Carried([], EMPTY_PURSE) else NOTHING;
      SaveStaysWellFormed(t, corpse.charId, 0, s, events);
      SaveBalancesIffRowsMatch(t, corpse.charId, 0, s, events);
      BodiesDoNotEnterTheBooks(SaveStores(t, corpse.charId, 0, s, events),
                               t.corpses + [corpse], t.corpseItems + Owned(corpse.id, items));
    case TxLoot(looter, id, left, coins, delete) =>
      SideKeepsTheBooks(t, looter);
      BodiesDoNotEnterTheBooks(TradeSide(t, looter), Apply(t, tx).corpses, Apply(t, tx).corpseItems);
    case TxCreate(a, cls, now) =>
      if StarterKit(cls).Some? {
        NewCharacterIsBalanced(t, a, StarterKit(cls).value, now);
      }
    case TxFold(cutoff, keys) => FoldKeepsTheBooks(t, cutoff, keys);
  }

  /** A transaction that was begun: committed, or lost to a crash or an error on the way. */
  datatype Begun = Begun(tx: Tx, committed: bool)

  ghost predicate Leads(t: Tables, run: seq<Begun>, last: Tables)
    decreases |run|
  {
    if run == [] then t == last
    else if run[0].committed then Honest(t, run[0].tx) && Leads(Apply(t, run[0].tx), run[1..], last)
    else Leads(t, run[1..], last)
  }

  const EMPTY: Tables := Tables(0, [], [], [], [], [], [], [])

  /** The books balance after every run of transactions from an empty database, crashes and all. */
  lemma {:induction false} TheBooksBalance(t: Tables, run: seq<Begun>, last: Tables)
    requires WellFormed(t) && Balanced(t) && Leads(t, run, last)
    ensures WellFormed(last) && Balanced(last) && WellFormed(EMPTY) && Balanced(EMPTY)
    decreases |run|
  {
    if run != [] {
      if run[0].committed {
        TxKeepsTheBooks(t, run[0].tx);
        TheBooksBalance(Apply(t, run[0].tx), run[1..], last);
      } else {
        TheBooksBalance(t, run[1..], last);
      }
    }
  }

  // ------------------------------------------------------ the conservation query

  /** One place the books do not balance; no item means coin. */
  datatype Mismatch = Mismatch(account: AccountId, item: Option<string>, ledger: int, held: int)

  /** The two sides of the books at one key. */
  function LedgerAt(t: Tables, a: AccountId, item: Option<string>): int {
    if item.Some? then LedgerItem(t, a, item.value) else LedgerCoin(t, a)
  }

  function HeldAt(t: Tables, a: AccountId, item: Option<string>): int {
    if item.Some? then HeldItem(t, a, item.value) else CoinsOf(t.characters, a)
  }

  predicate Wrong(t: Tables, m: Mismatch) {
    && m.ledger == LedgerAt(t, m.account, m.item)
    && m.held == HeldAt(t, m.account, m.item)
    && m.ledger != m.held
  }

  function StackKeys(cs: seq<Character>, stacks: seq<Stack>): set<(AccountId, Option<string>)> {
    set s | s in stacks && AccountOf(cs, s.owner).Some? :: (AccountOf(cs, s.owner).value, Some(s.row.item))
  }

  /** The keys the query compares: what some joined ledger row or held stack names, and every account's coin. */
  function BookKeys(t: Tables): set<(AccountId, Option<string>)> {
    (set e | e in t.events && e.item.Some? && AccountOf(t.characters, e.charId).Some?
      :: (AccountOf(t.characters, e.charId).value, e.item))
    + StackKeys(t.characters, t.inventory)
    + StackKeys(t.characters, t.vault)
    + (set s | s in t.shared :: (s.owner, Some(s.row.item)))
    + (set c | c in t.characters :: (c.account, None))
  }

  lemma {:induction false} CountNone(stacks: seq<Stack>, sel: nat -> bool, item: string)
    requires forall s :: s in stacks ==> !(sel(s.owner) && s.row.item == item)
    ensures Count(stacks, sel, item) == 0
  {
    if stacks != [] {
      assert stacks[0] in stacks && forall s :: s in stacks[1..] ==> s in stacks;
      CountNone(stacks[1..], sel, item);
    }
  }

  lemma {:induction false} CoinsNone(cs: seq<Character>, a: AccountId)
    requires forall c :: c in cs ==> c.account != a
    ensures CoinsOf(cs, a) == 0
  {
    if cs != [] {
      assert cs[0] in cs && forall c :: c in cs[1..] ==> c in cs;
      CoinsNone(cs[1..], a);
    }
  }

  lemma {:induction false} AccountIsOfSomeone(cs: seq<Character>, id: CharId)
    requires AccountOf(cs, id).Some?
    ensures exists c :: c in cs && c.account == AccountOf(cs, id).value
  {
    if cs[0].id != id {
      AccountIsOfSomeone(cs[1..], id);
    } else {
      assert cs[0] in cs;
    }
  }

  /** At a key no row or stack names, both sides are nothing: the query misses no mismatch. */
  lemma OtherKeysBalance(t: Tables, a: AccountId, item: Option<string>)
    requires (a, item) !in BookKeys(t)
    ensures LedgerAt(t, a, item) == 0 == HeldAt(t, a, item)
  {
    var cs := t.characters;
    if item.Some? {
      forall e | e in t.events
        ensures !RowsOfItem(cs, a, item.value)(KeyOf(e))
      {
        assert e.item.Some? && AccountOf(cs, e.charId).Some? ==>
            (AccountOf(cs, e.charId).value, e.item) in BookKeys(t);
      }
      OverNone(t.events, RowsOfItem(cs, a, item.value), Delta);
      forall s | s in t.inventory + t.vault
        ensures !(OfAccount(cs, a)(s.owner) && s.row.item == item.value)
      {
        assert AccountOf(cs, s.owner).Some? ==>
            (AccountOf(cs, s.owner).value, Some(s.row.item)) in BookKeys(t);
      }
      CountNone(t.inventory, OfAccount(cs, a), item.value);
      CountNone(t.vault, OfAccount(cs, a), item.value);
      forall s | s in t.shared
        ensures !(Owner(a)(s.owner) && s.row.item == item.value)
      {
        assert (s.owner, Some(s.row.item)) in BookKeys(t);
      }
      CountNone(t.shared, Owner(a), item.value);
    } else {
      forall c | c in cs
        ensures c.account != a
      {
        assert (c.account, None) in BookKeys(t);
      }
      CoinsNone(cs, a);
      forall e | e in t.events
        ensures !RowsOfAccount(cs, a)(KeyOf(e))
      {
        if RowsOfAccount(cs, a)(KeyOf(e)) {
          AccountIsOfSomeone(cs, e.charId);
        }
      }
      OverNone(t.events, RowsOfAccount(cs, a), Copper);
    }
  }

  /** An empty answer and balanced books are the same thing. */
  lemma EmptyAnswerIffBalanced(t: Tables, out: seq<Mismatch>)
    requires forall m :: m in out <==> Wrong(t, m)
    ensures out == [] <==> Balanced(t)
  {
    if out == [] {
      forall a: AccountId, item: string
        ensures LedgerItem(t, a, item) == HeldItem(t, a, item)
      {
        assert !Wrong(t, Mismatch(a, Some(item), LedgerItem(t, a, item), HeldItem(t, a, item)));
      }
      forall a: AccountId
        ensures LedgerCoin(t, a) == CoinsOf(t.characters, a)
      {
        assert !Wrong(t, Mismatch(a, None, LedgerCoin(t, a), CoinsOf(t.characters, a)));
      }
    } else {
      var m := out[0];
      assert m in out && Wrong(t, m);
      if m.item.Some? {
        assert LedgerItem(t, m.account, m.item.value) != HeldItem(t, m.account, m.item.value);
      } else {
        assert LedgerCoin(t, m.account) != CoinsOf(t.characters, m.account);
      }
    }
  }

  // ---------------------------------------------------------------- the database

  /** Inserts one owner's rows one statement at a time; any of them may be the last. */
  method InsertStacks(before: seq<Stack>, o: nat, rows: seq<Row>) returns (ok: bool, after: seq<Stack>)
    ensures ok ==> after == before + Owned(o, rows)
  {
    after := before;
    var i := 0;
    while i < |rows|
      invariant 0 <= i <= |rows|
      invariant after == before + Owned(o, rows[..i])
    {
      if * {
        return false, after;
      }
      after := after + [Stack(o, rows[i])];
      assert Owned(o, rows[..i + 1]) == Owned(o, rows[..i]) + [Stack(o, rows[i])];
      i := i + 1;
    }
    assert rows[..i] == rows;
    return true, after;
  }

  /** `write_item_events`, inside the caller's transaction. */
  method InsertEvents(before: seq<EventRow>, rows: seq<EventRow>) returns (ok: bool, after: seq<EventRow>)
    ensures ok ==> after == before + rows
  {
    after := before;
    var i := 0;
    while i < |rows|
      invariant 0 <= i <= |rows|
      invariant after == before + rows[..i]
    {
      if * {
        return false, after;
      }
      after := after + [rows[i]];
      i := i + 1;
    }
    assert rows[..i] == rows;
    return true, after;
  }

  method ReplaceStacks(before: seq<Stack>, o: nat, rows: Option<seq<Row>>) returns (ok: bool, after: seq<Stack>)
    ensures ok ==> after == ReplacedIf(before, o, rows)
  {
    if rows.None? {
      return true, before;
    }
    if * {
      return false, before;
    }
    ok, after := InsertStacks(Except(before, o), o, rows.value);
  }

  /** The updates of a wallet and of a bank: two statements, each made only when its purse is dirty. */
  method WritePurses(before: seq<Character>, c: CharId, wallet: Option<Purse>, bank: Option<Purse>)
    returns (ok: bool, after: seq<Character>)
    ensures ok ==> after == WithPurses(before, c, wallet, bank)
  {
    after := before;
    NothingDirty(before, c);
    if wallet.Some? {
      if * {
        return false, after;
      }
      after := UpdateWallet(after, c, wallet.value);
    }
    if bank.Some? {
      if * {
        return false, after;
      }
      WalletThenBank(before, c, wallet, bank.value);
      after := UpdateBank(after, c, bank.value);
    }
    return true, after;
  }

  lemma {:induction false} NothingDirty(cs: seq<Character>, c: CharId)
    ensures WithPurses(cs, c, None, None) == cs
  {
    if cs != [] {
      NothingDirty(cs[1..], c);
    }
  }

  lemma {:induction false} WalletThenBank(cs: seq<Character>, c: CharId, wallet: Option<Purse>, bank: Purse)
    ensures WithPurses(WithPurses(cs, c, wallet, None), c, None, Some(bank)) == WithPurses(cs, c, wallet, Some(bank))
  {
    if cs != [] {
      WalletThenBank(cs[1..], c, wallet, bank);
      assert WithPurses(cs, c, wallet, None)[1..] == WithPurses(cs[1..], c, wallet, None);
    }
  }

  method UpdateWallet(before: seq<Character>, c: CharId, purse: Purse) returns (after: seq<Character>)
    ensures after == WithPurses(before, c, Some(purse), None)
  {
    after := before;
    for i := 0 to |before|
      invariant |after| == |before|
      invariant forall j :: 0 <= j < |before| ==>
        after[j] == if j < i && before[j].id == c then before[j].(wallet := purse) else before[j]
    {
      if before[i].id == c {
        after := after[i := before[i].(wallet := purse)];
      }
    }
    RowByRow(before, c, Some(purse), None);
  }

  method UpdateBank(before: seq<Character>, c: CharId, purse: Purse) returns (after: seq<Character>)
    ensures after == WithPurses(before, c, None, Some(purse))
  {
    after := before;
    for i := 0 to |before|
      invariant |after| == |before|
      invariant forall j :: 0 <= j < |before| ==>
        after[j] == if j < i && before[j].id == c then before[j].(bank := purse) else before[j]
    {
      if before[i].id == c {
        after := after[i := before[i].(bank := purse)];
      }
    }
    RowByRow(before, c, None, Some(purse));
  }

  lemma {:induction false} RowByRow(cs: seq<Character>, c: CharId, w: Option<Purse>, b: Option<Purse>)
    ensures forall j :: 0 <= j < |cs| ==>
      WithPurses(cs, c, w, b)[j] ==
        if cs[j].id != c then cs[j]
        else cs[j].(wallet := if w.Some? then w.value else cs[j].wallet,
                    bank := if b.Some? then b.value else cs[j].bank)
  {
    if cs != [] {
      RowByRow(cs[1..], c, w, b);
    }
  }

  /** The writes of one connection's stores on a transaction's working copy. */
  method WriteStores(before: Tables, c: CharId, a: AccountId, s: Stored, events: seq<EventRow>)
    returns (ok: bool, tx: Tables)
    ensures ok ==> tx == SaveStores(before, c, a, s, events)
  {
    var inventory, characters, vault, shared, rows;
    tx := before;
    ok, inventory := ReplaceStacks(tx.inventory, c, s.inventory);
    if !ok { return; }
    ok, characters := WritePurses(tx.characters, c, s.wallet, s.bank);
    if !ok { return; }
    ok, vault := ReplaceStacks(tx.vault, c, s.vault);
    if !ok { return; }
    ok, shared := ReplaceStacks(tx.shared, a, s.shared);
    if !ok { return; }
    ok, rows := InsertEvents(tx.events, events);
    tx := tx.(inventory := inventory, characters := characters, vault := vault, shared := shared, events := rows);
  }

  /** The live tables. A method that returns `false` stopped somewhere before its commit. */
  class Database {
    var tables: Tables

    constructor ()
      ensures tables == EMPTY
    {
      tables := EMPTY;
    }

    method SaveStoresAtomic(c: CharId, a: AccountId, s: Stored, events: seq<EventRow>) returns (ok: bool)
      modifies this
      ensures tables == if ok then Apply(old(tables), TxSave(c, a, s, events)) else old(tables)
    {
      var tx;
      ok, tx := WriteStores(tables, c, a, s, events);
      if ok {
        tables := tx;
      }
    }

    method Trade(a: Side, b: Side) returns (ok: bool)
      modifies this
      ensures tables == if ok then Apply(old(tables), TxTrade(a, b)) else old(tables)
    {
      var tx;
      ok, tx := WriteStores(tables, a.charId, 0, Carried(a.rows, a.wallet), a.events);
      if !ok { return; }
      ok, tx := WriteStores(tx, b.charId, 0, Carried(b.rows, b.wallet), b.events);
      if ok {
        tables := tx;
      }
    }

    method Die(corpse: Corpse, items: seq<Row>, strip: bool, events: seq<EventRow>) returns (ok: bool)
      modifies this
      ensures tables == if ok then Apply(old(tables), TxDeath(corpse, items, strip, events)) else old(tables)
    {
      var tx, bodies;
      ok, bodies := InsertStacks(tables.corpseItems, corpse.id, items);
      if !ok { return; }
      ok, tx := WriteStores(tables, corpse.charId, 0, if strip then Carried([], EMPTY_PURSE) else NOTHING, events);
      if ok {
        tables := tx.(corpses := tx.corpses + [corpse], corpseItems := bodies);
      }
    }

    method Loot(looter: Side, corpseId: nat, left: seq<Row>, coins: Purse, delete: bool) returns (ok: bool)
      modifies this
      ensures tables == if ok then Apply(old(tables), TxLoot(looter, corpseId, left, coins, delete)) else old(tables)
    {
      var tx;
      ok, tx := WriteStores(tables, looter.charId, 0, Carried(looter.rows, looter.wallet), looter.events);
      if !ok { return; }
      var bodies := Except(tx.corpseItems, corpseId);
      if delete {
        tables := tx.(corpses := CorpsesExcept(tx.corpses, corpseId), corpseItems := bodies);
      } else {
        ok, bodies := InsertStacks(bodies, corpseId, left);
        if ok {
          tables := tx.(corpses := CorpsesWith(tx.corpses, corpseId, coins), corpseItems := bodies);
        }
      }
    }

    method Create(a: AccountId, cls: string, now: int) returns (created: Option<CharId>)
      modifies this
      ensures created.Some? ==> created.value == old(tables).nextId && StarterKit(cls).Some?
      ensures tables == if created.Some? then Apply(old(tables), TxCreate(a, cls, now)) else old(tables)
    {
      var kit := StarterKit(cls);
      if kit.None? {
        return None;
      }
      var c := tables.nextId;
      var ok, worn := InsertStacks(tables.inventory, c, kit.value);
      if !ok { return None; }
      var rows;
      ok, rows := InsertEvents(tables.events, StarterEvents(c, now, kit.value));
      if !ok { return None; }
      tables := tables.(nextId := c + 1,
                        characters := tables.characters + [Character(c, a, EMPTY_PURSE, EMPTY_PURSE)],
                        inventory := worn, events := rows);
      return Some(c);
    }

    /** `fold_item_events_before`: the groups met in some order, the carries counted, the old rows deleted. */
    method Fold(cutoff: int) returns (ok: bool, carried: nat, deleted: nat, ghost keys: seq<Key>)
      modifies this
      ensures GroupsOf(keys, old(tables).events, cutoff)
      ensures tables == if ok then Apply(old(tables), TxFold(cutoff, keys)) else old(tables)
      ensures ok ==> deleted == |Before(old(tables).events, cutoff)| && carried <= deleted
      ensures ok ==> |tables.events| == |old(tables).events| - deleted + carried
    {
      var past := Before(tables.events, cutoff);
      var groups := Collect(KeysOf(past));
      var carries := CarryForward(past, groups, cutoff);
      keys, carried, deleted := groups, |carries|, |past|;
      if * {
        return false, 0, 0, keys;
      }
      CarriesNeverOutnumber(tables.events, cutoff, groups);
      OverSplit(tables.events, cutoff, AnyKey(), Delta);
      tables := tables.(events := Since(tables.events, cutoff) + carries);
      return true, carried, deleted, keys;
    }

    /** One carry row for each group that does not sum to nothing. */
    static method CarryForward(past: seq<EventRow>, groups: seq<Key>, cutoff: int) returns (carries: seq<EventRow>)
      ensures carries == Carries(past, groups, cutoff)
    {
      carries := [];
      var i := 0;
      while i < |groups|
        invariant 0 <= i <= |groups|
        invariant carries + Carries(past, groups[i..], cutoff) == Carries(past, groups, cutoff)
      {
        assert groups[i..][1..] == groups[i + 1..];
        if GroupSum(past, groups[i], Delta) != 0 || GroupSum(past, groups[i], Copper) != 0 {
          carries := carries + [Carry(past, groups[i], cutoff)];
        }
        i := i + 1;
      }
    }

    /** `ledger_mismatches`: every key whose two sides differ, once each, with both sides. */
    method LedgerMismatches() returns (out: seq<Mismatch>)
      ensures forall m :: m in out <==> Wrong(tables, m)
      ensures NoDuplicates(out)
    {
      var keys := Collect(BookKeys(tables));
      out := [];
      var i := 0;
      while i < |keys|
        invariant 0 <= i <= |keys|
        invariant forall m :: m in out <==> Wrong(tables, m) && (m.account, m.item) in keys[..i]
        invariant NoDuplicates(out)
      {
        var (a, item) := keys[i];
        var m := Mismatch(a, item, LedgerAt(tables, a, item), HeldAt(tables, a, item));
        assert (a, item) !in keys[..i];
        assert keys[..i + 1] == keys[..i] + [keys[i]];
        if m.ledger != m.held {
          out := out + [m];
        }
        i := i + 1;
      }
      assert keys[..i] == keys;
      forall m: Mismatch | (m.account, m.item) !in keys
        ensures !Wrong(tables, m)
      {
        OtherKeysBalance(tables, m.account, m.item);
      }
    }
  }
}
