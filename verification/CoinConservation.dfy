/**
 Coin is neither made nor lost: what every wallet, bank and body holds together, before
 and after a trade, a death and a looting.
 */
module CoinConservation {
  import opened Options
  import opened Ledger
  import opened Stores
  import Coins

  function AllPurses(cs: seq<Character>): int {
    if cs == [] then 0 else Coins.Value(cs[0].wallet) + Coins.Value(cs[0].bank) + AllPurses(cs[1..])
  }

  function AllBodies(cs: seq<Corpse>): int {
    if cs == [] then 0 else Coins.Value(cs[0].coins) + AllBodies(cs[1..])
  }

  /** All the coin there is: wallets, banks and bodies. */
  function AllCoin(t: Tables): int {
    AllPurses(t.characters) + AllBodies(t.corpses)
  }

  function WalletOf(cs: seq<Character>, id: CharId): int {
    if cs == [] then 0 else if cs[0].id == id then Coins.Value(cs[0].wallet) else WalletOf(cs[1..], id)
  }

  /** What the body of an id holds; nothing when there is none. */
  function BodyOf(cs: seq<Corpse>, id: nat): int {
    if cs == [] then 0 else if cs[0].id == id then Coins.Value(cs[0].coins) else BodyOf(cs[1..], id)
  }

  predicate HasBody(cs: seq<Corpse>, id: nat) {
    exists c :: c in cs && c.id == id
  }

  predicate DistinctBodies(cs: seq<Corpse>) {
    forall i, j :: 0 <= i < j < |cs| ==> cs[i].id != cs[j].id
  }

  predicate DistinctCharacters(cs: seq<Character>) {
    forall i, j :: 0 <= i < j < |cs| ==> cs[i].id != cs[j].id
  }

  lemma {:induction false} PursesAfter(cs: seq<Character>, id: CharId, w: Option<Purse>, b: Option<Purse>)
    requires DistinctCharacters(cs)
    ensures AllPurses(WithPurses(cs, id, w, b)) == AllPurses(cs) + CoinChange(cs, id, w, b)
  {
    if cs != [] {
      assert WithPurses(cs, id, w, b)[1..] == WithPurses(cs[1..], id, w, b);
      if cs[0].id == id {
        UntouchedPurses(cs[1..], id, w, b);
      } else {
        PursesAfter(cs[1..], id, w, b);
      }
    }
  }

  /** Writing a wallet changes a character's purses by what the wallet gains. */
  lemma {:induction false} WalletChange(cs: seq<Character>, id: CharId, w: Purse)
    ensures CoinChange(cs, id, Some(w), None)
         == if AccountOf(cs, id).Some? then Coins.Value(w) - WalletOf(cs, id) else 0
    ensures AccountOf(cs, id).None? ==> WalletOf(cs, id) == 0
  {
    if cs != [] {
      WalletChange(cs[1..], id, w);
    }
  }

  lemma {:induction false} BodiesConcat(a: seq<Corpse>, b: seq<Corpse>)
    ensures AllBodies(a + b) == AllBodies(a) + AllBodies(b)
  {
    if a == [] {
      assert a + b == b;
    } else {
      assert (a + b)[1..] == a[1..] + b;
      BodiesConcat(a[1..], b);
    }
  }

  lemma {:induction false} NoBodyNoCoin(cs: seq<Corpse>, id: nat, coins: Purse)
    requires forall c :: c in cs ==> c.id != id
    ensures BodyOf(cs, id) == 0 && CorpsesExcept(cs, id) == cs && CorpsesWith(cs, id, coins) == cs
  {
    if cs != [] {
      assert cs[0] in cs && forall c :: c in cs[1..] ==> c in cs;
      NoBodyNoCoin(cs[1..], id, coins);
    }
  }

  lemma {:induction false} BodiesAfter(cs: seq<Corpse>, id: nat, coins: Purse)
    requires DistinctBodies(cs)
    ensures AllBodies(CorpsesExcept(cs, id)) == AllBodies(cs) - BodyOf(cs, id)
    ensures AllBodies(CorpsesWith(cs, id, coins))
         == AllBodies(cs) - BodyOf(cs, id) + if HasBody(cs, id) then Coins.Value(coins) else 0
  {
    if cs != [] {
      var rest := cs[1..];
      assert CorpsesWith(cs, id, coins)[1..] == CorpsesWith(rest, id, coins);
      assert HasBody(cs, id) <==> cs[0].id == id || HasBody(rest, id);
      if cs[0].id == id {
        assert forall c :: c in rest ==> c.id != id;
        NoBodyNoCoin(rest, id, coins);
      } else {
        BodiesAfter(rest, id, coins);
        assert ([cs[0]] + CorpsesExcept(rest, id))[1..] == CorpsesExcept(rest, id);
      }
    }
  }

  lemma SideMovesCoin(t: Tables, s: Side)
    requires DistinctCharacters(t.characters) && SideMatches(t, s)
    ensures AllCoin(TradeSide(t, s)) == AllCoin(t) + Over(s.events, AnyKey(), Copper)
    ensures DistinctCharacters(TradeSide(t, s).characters)
  {
    PursesAfter(t.characters, s.charId, Some(s.wallet), None);
  }

  /** A trade makes and loses no coin exactly when the two sides' rows cancel in copper. */
  lemma TradeConservesCoinIff(t: Tables, a: Side, b: Side)
    requires WellFormed(t) && a.charId != b.charId && SideMatches(t, a) && SideMatches(t, b)
    ensures AllCoin(CommitTrade(t, a, b)) == AllCoin(t)
      <==> Over(a.events, AnyKey(), Copper) + Over(b.events, AnyKey(), Copper) == 0
  {
    SideMovesCoin(t, a);
    OtherSideStillMatches(t, a, b);
    SideMovesCoin(TradeSide(t, a), b);
  }

  /** A death that strips its owner makes and loses no coin exactly when the body gets what the wallet held. */
  lemma DeathConservesCoinIff(t: Tables, corpse: Corpse, items: seq<Row>, events: seq<EventRow>)
    requires WellFormed(t)
    ensures AllCoin(SaveCorpse(t, corpse, items, true, events)) == AllCoin(t)
      <==> Coins.Value(corpse.coins) == WalletOf(t.characters, corpse.charId)
  {
    PursesAfter(t.characters, corpse.charId, Some(EMPTY_PURSE), None);
    WalletChange(t.characters, corpse.charId, EMPTY_PURSE);
    EmptyPurseIsWorthNothing();
    BodiesConcat(t.corpses, [corpse]);
    assert [corpse][1..] == [];
  }

  /** Looting makes and loses no coin exactly when the looter's wallet and the body together hold what they held. */
  lemma LootConservesCoinIff(t: Tables, looter: Side, corpseId: nat, items: seq<Row>, coins: Purse, delete: bool)
    requires WellFormed(t) && DistinctBodies(t.corpses) && AccountOf(t.characters, looter.charId).Some?
    ensures AllCoin(LootCorpse(t, looter, corpseId, items, coins, delete)) == AllCoin(t)
      <==> (Coins.Value(looter.wallet) + (if delete || !HasBody(t.corpses, corpseId) then 0 else Coins.Value(coins))
            == WalletOf(t.characters, looter.charId) + BodyOf(t.corpses, corpseId))
  {
    PursesAfter(t.characters, looter.charId, Some(looter.wallet), None);
    WalletChange(t.characters, looter.charId, looter.wallet);
    BodiesAfter(t.corpses, corpseId, coins);
  }
}
