/**
 What a transaction leaves to be read back, owner by owner: the very rows and purses it
 was handed, in order and in place, and everyone else's as they were.
 */
module SavedStores {
  import opened Options
  import opened Ledger
  import opened Stores

  /** The rows of one owner, in order. */
  function RowsOf(stacks: seq<Stack>, o: nat): seq<Row> {
    if stacks == [] then []
    else if stacks[0].owner == o then [stacks[0].row] + RowsOf(stacks[1..], o)
    else RowsOf(stacks[1..], o)
  }

  function BodyOf(cs: seq<Corpse>, id: nat): Option<Corpse> {
    if cs == [] then None else if cs[0].id == id then Some(cs[0]) else BodyOf(cs[1..], id)
  }

  lemma {:induction false} RowsConcat(a: seq<Stack>, b: seq<Stack>, o: nat)
    ensures RowsOf(a + b, o) == RowsOf(a, o) + RowsOf(b, o)
  {
    if a == [] {
      assert a + b == b;
    } else {
      assert (a + b)[0] == a[0] && (a + b)[1..] == a[1..] + b;
      RowsConcat(a[1..], b, o);
    }
  }

  lemma {:induction false} RowsExcept(stacks: seq<Stack>, o: nat, x: nat)
    ensures RowsOf(Except(stacks, o), x) == if x == o then [] else RowsOf(stacks, x)
  {
    if stacks != [] {
      RowsExcept(stacks[1..], o, x);
      var rest := Except(stacks[1..], o);
      assert ([stacks[0]] + rest)[1..] == rest;
    }
  }

  lemma {:induction false} RowsOwned(o: nat, rows: seq<Row>, x: nat)
    ensures RowsOf(Owned(o, rows), x) == if x == o then rows else []
  {
    if rows != [] {
      RowsOwned(o, rows[1..], x);
      assert Owned(o, rows)[1..] == Owned(o, rows[1..]);
    }
  }

  lemma RowsReplaced(stacks: seq<Stack>, o: nat, rows: Option<seq<Row>>, x: nat)
    ensures RowsOf(ReplacedIf(stacks, o, rows), x) == if x == o && rows.Some? then rows.value else RowsOf(stacks, x)
  {
    if rows.Some? {
      RowsExcept(stacks, o, x);
      RowsOwned(o, rows.value, x);
      RowsConcat(Except(stacks, o), Owned(o, rows.value), x);
    }
  }

  /** A save writes each dirty store as it was handed over, leaves the others, and touches nobody else's. */
  lemma SaveWritesStores(t: Tables, c: CharId, a: AccountId, s: Stored, events: seq<EventRow>, x: nat)
    ensures
      var t' := SaveStores(t, c, a, s, events);
      && RowsOf(t'.inventory, x) == (if x == c && s.inventory.Some? then s.inventory.value else RowsOf(t.inventory, x))
      && RowsOf(t'.vault, x) == (if x == c && s.vault.Some? then s.vault.value else RowsOf(t.vault, x))
      && RowsOf(t'.shared, x) == (if x == a && s.shared.Some? then s.shared.value else RowsOf(t.shared, x))
      && t'.events == t.events + events && t'.nextId == t.nextId
      && t'.corpses == t.corpses && t'.corpseItems == t.corpseItems
  {
    RowsReplaced(t.inventory, c, s.inventory, x);
    RowsReplaced(t.vault, c, s.vault, x);
    RowsReplaced(t.shared, a, s.shared, x);
  }

  /** Wallet and bank are each the one handed over when dirty and the old one when not, whichever of them are dirty. */
  lemma SaveWritesPurses(t: Tables, c: CharId, a: AccountId, s: Stored, events: seq<EventRow>, x: CharId)
    requires CharacterOf(t.characters, x).Some?
    ensures
      var now := CharacterOf(SaveStores(t, c, a, s, events).characters, x);
      && now.Some? && now.value.account == CharacterOf(t.characters, x).value.account
      && now.value.wallet ==
           (if x == c && s.wallet.Some? then s.wallet.value else CharacterOf(t.characters, x).value.wallet)
      && now.value.bank == (if x == c && s.bank.Some? then s.bank.value else CharacterOf(t.characters, x).value.bank)
  {
    PursesWritten(t.characters, c, s.wallet, s.bank, x);
  }

  /** One hundred copper put in the bank: the wallet empty, the bank with it all. */
  lemma DepositIsKept(t: Tables, c: CharId, a: AccountId)
    requires CharacterOf(t.characters, c).Some?
    ensures
      var s := Stored(None, Some([0, 0, 0, 0]), Some([100, 0, 0, 0]), None, None);
      var now := CharacterOf(SaveStores(t, c, a, s, []).characters, c);
      now.Some? && now.value.wallet == [0, 0, 0, 0] && now.value.bank == [100, 0, 0, 0]
  {
    SaveWritesPurses(t, c, a, Stored(None, Some([0, 0, 0, 0]), Some([100, 0, 0, 0]), None, None), [], c);
  }

  /** A trade leaves each side the rows and the wallet it agreed to, its bank and its vault, and others everything. */
  lemma TradeWritesBoth(t: Tables, a: Side, b: Side, x: CharId)
    requires a.charId != b.charId && CharacterOf(t.characters, x).Some?
    ensures
      var t' := CommitTrade(t, a, b);
      var was, now := CharacterOf(t.characters, x).value, CharacterOf(t'.characters, x);
      && now.Some? && now.value.bank == was.bank && now.value.account == was.account
      && now.value.wallet == (if x == a.charId then a.wallet else if x == b.charId then b.wallet else was.wallet)
      && RowsOf(t'.inventory, x) ==
           (if x == a.charId then a.rows else if x == b.charId then b.rows else RowsOf(t.inventory, x))
      && t'.vault == t.vault && t'.shared == t.shared && t'.events == t.events + a.events + b.events
  {
    var mid := TradeSide(t, a);
    SaveWritesStores(t, a.charId, 0, Carried(a.rows, a.wallet), a.events, x);
    SaveWritesPurses(t, a.charId, 0, Carried(a.rows, a.wallet), a.events, x);
    SaveWritesStores(mid, b.charId, 0, Carried(b.rows, b.wallet), b.events, x);
    SaveWritesPurses(mid, b.charId, 0, Carried(b.rows, b.wallet), b.events, x);
  }

  /** A death lays down a body with the items handed over; its owner is emptied exactly when it strips. */
  lemma DeathLaysABody(t: Tables, corpse: Corpse, items: seq<Row>, strip: bool, events: seq<EventRow>, x: nat)
    requires CharacterOf(t.characters, corpse.charId).Some?
    ensures
      var t' := SaveCorpse(t, corpse, items, strip, events);
      var was, now := CharacterOf(t.characters, corpse.charId).value, CharacterOf(t'.characters, corpse.charId);
      && now.Some? && now.value.wallet == (if strip then EMPTY_PURSE else was.wallet) && now.value.bank == was.bank
      && RowsOf(t'.inventory, x) == (if strip && x == corpse.charId then [] else RowsOf(t.inventory, x))
      && RowsOf(t'.corpseItems, x) == RowsOf(t.corpseItems, x) + (if x == corpse.id then items else [])
      && t'.corpses == t.corpses + [corpse] && t'.events == t.events + events && t'.vault == t.vault
  {
    var s := if strip then Carried([], EMPTY_PURSE) else NOTHING;
    SaveWritesStores(t, corpse.charId, 0, s, events, x);
    SaveWritesPurses(t, corpse.charId, 0, s, events, corpse.charId);
    RowsOwned(corpse.id, items, x);
    RowsConcat(t.corpseItems, Owned(corpse.id, items), x);
  }

  lemma {:induction false} BodyAfter(cs: seq<Corpse>, id: nat, coins: Purse, x: nat)
    ensures BodyOf(CorpsesExcept(cs, id), x) == if x == id then None else BodyOf(cs, x)
    ensures BodyOf(CorpsesWith(cs, id, coins), x).Some? <==> BodyOf(cs, x).Some?
    ensures BodyOf(cs, x).Some? ==>
      BodyOf(CorpsesWith(cs, id, coins), x).value ==
        (if x == id then BodyOf(cs, x).value.(coins := coins) else BodyOf(cs, x).value)
  {
    if cs != [] {
      BodyAfter(cs[1..], id, coins, x);
      assert CorpsesWith(cs, id, coins)[1..] == CorpsesWith(cs[1..], id, coins);
      var rest := CorpsesExcept(cs[1..], id);
      assert ([cs[0]] + rest)[1..] == rest;
    }
  }

  /** A looting leaves the looter what it took, and the body what was left, or no body at all. */
  lemma LootLeavesTheRest(t: Tables, looter: Side, id: nat, items: seq<Row>, coins: Purse, delete: bool, x: nat)
    requires CharacterOf(t.characters, looter.charId).Some?
    ensures
      var t' := LootCorpse(t, looter, id, items, coins, delete);
      var was, now := CharacterOf(t.characters, looter.charId).value, CharacterOf(t'.characters, looter.charId);
      && now.Some? && now.value.wallet == looter.wallet && now.value.bank == was.bank
      && RowsOf(t'.inventory, x) == (if x == looter.charId then looter.rows else RowsOf(t.inventory, x))
      && RowsOf(t'.corpseItems, x) ==
           (if x != id then RowsOf(t.corpseItems, x) else if delete then [] else items)
      && (x != id ==> BodyOf(t'.corpses, x) == BodyOf(t.corpses, x))
      && (delete ==> BodyOf(t'.corpses, id) == None)
      && (!delete && BodyOf(t.corpses, id).Some? ==>
            BodyOf(t'.corpses, id) == Some(BodyOf(t.corpses, id).value.(coins := coins)))
      && t'.events == t.events + looter.events
  {
    SaveWritesStores(t, looter.charId, 0, Carried(looter.rows, looter.wallet), looter.events, x);
    SaveWritesPurses(t, looter.charId, 0, Carried(looter.rows, looter.wallet), looter.events, looter.charId);
    RowsExcept(t.corpseItems, id, x);
    RowsReplaced(t.corpseItems, id, Some(items), x);
    BodyAfter(t.corpses, id, coins, x);
    BodyAfter(t.corpses, id, coins, id);
  }

  lemma {:induction false} NewcomerIsLast(cs: seq<Character>, c: Character, x: CharId)
    ensures CharacterOf(cs + [c], x) ==
      if CharacterOf(cs, x).Some? then CharacterOf(cs, x) else if x == c.id then Some(c) else None
  {
    if cs == [] {
      assert cs + [c] == [c];
    } else {
      assert (cs + [c])[0] == cs[0] && (cs + [c])[1..] == cs[1..] + [c];
      NewcomerIsLast(cs[1..], c, x);
    }
  }

  lemma {:induction false} NobodysRows(stacks: seq<Stack>, o: nat)
    requires forall s :: s in stacks ==> s.owner != o
    ensures RowsOf(stacks, o) == []
  {
    if stacks != [] {
      assert stacks[0] in stacks && forall s :: s in stacks[1..] ==> s in stacks;
      NobodysRows(stacks[1..], o);
    }
  }

  /** A new character wears its kit and nothing else, has no coin, and leaves everyone else alone. */
  lemma NewCharacterWearsItsKit(t: Tables, a: AccountId, kit: seq<Row>, now: int, x: CharId)
    requires WellFormed(t)
    ensures
      var t' := CreateCharacter(t, a, kit, now);
      && RowsOf(t'.inventory, x) == (if x == t.nextId then kit else RowsOf(t.inventory, x))
      && CharacterOf(t'.characters, x) ==
           (if x == t.nextId then Some(Character(t.nextId, a, EMPTY_PURSE, EMPTY_PURSE))
            else CharacterOf(t.characters, x))
      && t'.nextId > t.nextId && t'.vault == t.vault && t'.shared == t.shared
  {
    RowsOwned(t.nextId, kit, x);
    RowsConcat(t.inventory, Owned(t.nextId, kit), x);
    AbsentHasNoAccount(t.characters, t.nextId);
    PursesWritten(t.characters, t.nextId, None, None, t.nextId);
    NewcomerIsLast(t.characters, Character(t.nextId, a, EMPTY_PURSE, EMPTY_PURSE), x);
    forall s | s in t.inventory
      ensures s.owner != t.nextId
    {
      assert s in t.inventory + t.vault;
    }
    NobodysRows(t.inventory, t.nextId);
  }
}
