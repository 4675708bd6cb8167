/** Use counts of tokens and of autonomy budgets. */
module Ledgers {
  import opened Basics

  function CountOf(m: map<Bytes, nat>, id: Bytes): nat {
    if id in m then m[id] else 0
  }

  datatype Counts = Counts(tokens: map<Bytes, nat>, autonomy: map<Bytes, nat>) {

    /** One more use of a token: granted while the count is below the limit presented with it. */
    function SpendToken(id: Bytes, maxUses: int): (bool, Counts) {
      if id == [] || maxUses <= 0 || CountOf(tokens, id) >= maxUses then (false, this)
      else (true, this.(tokens := tokens[id := CountOf(tokens, id) + 1]))
    }

    function SpendAutonomy(id: Bytes, maxActions: int): (bool, Counts) {
      if id == [] || maxActions <= 0 || CountOf(autonomy, id) >= maxActions then (false, this)
      else (true, this.(autonomy := autonomy[id := CountOf(autonomy, id) + 1]))
    }
  }

  class Ledger {
    var tokenConsumed: map<Bytes, nat>
    var autonomyConsumed: map<Bytes, nat>

    function View(): Counts
      reads this
    {
      Counts(tokenConsumed, autonomyConsumed)
    }

    constructor ()
      ensures View() == Counts(map[], map[])
    {
      tokenConsumed, autonomyConsumed := map[], map[];
    }

    method ConsumeToken(id: Bytes, maxUses: int) returns (granted: bool)
      modifies this`tokenConsumed
      ensures (granted, View()) == old(View()).SpendToken(id, maxUses)
      ensures granted <==> id != [] && CountOf(old(tokenConsumed), id) < maxUses
      ensures tokenConsumed == if granted then old(tokenConsumed)[id := CountOf(old(tokenConsumed), id) + 1]
                               else old(tokenConsumed)
    {
      if id == [] || maxUses <= 0 {
        return false;
      }
      var current := if id in tokenConsumed then tokenConsumed[id] else 0;
      if current >= maxUses {
        return false;
      }
      tokenConsumed := tokenConsumed[id := current + 1];
      return true;
    }

    method ConsumeAutonomy(id: Bytes, maxActions: int) returns (granted: bool)
      modifies this`autonomyConsumed
      ensures (granted, View()) == old(View()).SpendAutonomy(id, maxActions)
      ensures granted <==> id != [] && CountOf(old(autonomyConsumed), id) < maxActions
      ensures autonomyConsumed == if granted then old(autonomyConsumed)[id := CountOf(old(autonomyConsumed), id) + 1]
                                  else old(autonomyConsumed)
    {
      if id == [] || maxActions <= 0 {
        return false;
      }
      var current := if id in autonomyConsumed then autonomyConsumed[id] else 0;
      if current >= maxActions {
        return false;
      }
      autonomyConsumed := autonomyConsumed[id := current + 1];
      return true;
    }

    method Reset()
      modifies this
      ensures View() == Counts(map[], map[])
    {
      tokenConsumed, autonomyConsumed := map[], map[];
    }
  }
}
