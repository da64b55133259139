// Versioned rate cards: what a contract charged on a given date must not change afterwards.
module RateCards {
  import opened Common
  import opened Pricing

  datatype Key = Key(contract: int, vehicleType: string, zone: Option<int>)

  datatype RateCard = RateCard(key: Key, terms: Terms, from: int, to: Option<int>, version: int)
  {
    predicate EffectiveAt(at: int) {
      from <= at && (to.None? || to.value >= at)
    }
  }

  // ---- Operations ----

  // The highest version among the first n cards of a key; 0 when there is none.
  function HighestVersion(cards: seq<RateCard>, key: Key, n: nat): int
    requires n <= |cards|
  {
    if n == 0 then 0
    else
      var before := HighestVersion(cards, key, n - 1);
      if cards[n - 1].key == key && cards[n - 1].version > before then cards[n - 1].version else before
  }

  function Add(cards: seq<RateCard>, key: Key, terms: Terms, from: int, to: Option<int>): seq<RateCard> {
    cards + [RateCard(key, terms, from, to, HighestVersion(cards, key, |cards|) + 1)]
  }

  function Close(cards: seq<RateCard>, id: nat, now: int): (r: seq<RateCard>)
    requires id < |cards|
    ensures |r| == |cards|
  {
    cards[id := cards[id].(to := Some(now))]
  }

  // The fields an edit replaces; the others carry over.
  datatype Edit = Edit(model: Option<PricingModel>, rules: Option<Rules>)
  {
    function Of(terms: Terms): Terms {
      Terms(if model.Some? then model.value else terms.model, if rules.Some? then rules.value else terms.rules)
    }
  }

  // "Editing" closes the card and appends its successor.
  function Update(cards: seq<RateCard>, id: nat, edit: Edit, from: Option<int>, to: Option<int>, now: int): seq<RateCard>
    requires id < |cards|
  {
    var card := cards[id];
    Close(cards, id, now) + [RateCard(
      card.key, edit.Of(card.terms), if from.Some? then from.value else now, to, card.version + 1)]
  }

  // ---- Lookup ----

  predicate Candidate(card: RateCard, key: Key, at: int) {
    card.key == key && card.EffectiveAt(at)
  }

  // The candidate with the highest version among the first n cards.
  function Best(cards: seq<RateCard>, key: Key, at: int, n: nat): (r: Option<nat>)
    requires n <= |cards|
    ensures r.Some? ==> r.value < n && Candidate(cards[r.value], key, at)
  {
    if n == 0 then None
    else
      var before := Best(cards, key, at, n - 1);
      if Candidate(cards[n - 1], key, at) && (before.None? || cards[n - 1].version > cards[before.value].version)
      then Some(n - 1) else before
  }

  // A card of the zone takes priority; a card without a zone is the fallback.
  function FindEffective(cards: seq<RateCard>, contract: int, vehicleType: string, at: int, zone: Option<int>): (r: Option<nat>)
    ensures r.Some? ==> r.value < |cards|
  {
    var specific := if zone.Some? then Best(cards, Key(contract, vehicleType, zone), at, |cards|) else None;
    if specific.Some? then specific else Best(cards, Key(contract, vehicleType, None), at, |cards|)
  }

  // What the database may answer to the ordered query; ties would leave it a choice.
  ghost predicate IsHighest(cards: seq<RateCard>, key: Key, at: int, i: int) {
    && 0 <= i < |cards| && Candidate(cards[i], key, at)
    && forall j | 0 <= j < |cards| && Candidate(cards[j], key, at) :: cards[j].version <= cards[i].version
  }

  ghost predicate UniqueVersions(cards: seq<RateCard>) {
    forall i, j | 0 <= i < j < |cards| && cards[i].key == cards[j].key :: cards[i].version != cards[j].version
  }

  lemma {:induction false} BestIsHighest(cards: seq<RateCard>, key: Key, at: int, n: nat)
    requires n <= |cards|
    ensures Best(cards, key, at, n).None? ==> forall j | 0 <= j < n :: !Candidate(cards[j], key, at)
    ensures Best(cards, key, at, n).Some? ==>
              forall j | 0 <= j < n && Candidate(cards[j], key, at) :: cards[j].version <= cards[Best(cards, key, at, n).value].version
  {
    if n > 0 { BestIsHighest(cards, key, at, n - 1); }
  }

  // With unique versions there is exactly one answer, the one that is looked up.
  lemma HighestIsBest(cards: seq<RateCard>, key: Key, at: int, i: nat)
    requires UniqueVersions(cards) && IsHighest(cards, key, at, i)
    ensures Best(cards, key, at, |cards|) == Some(i)
  {
    BestIsHighest(cards, key, at, |cards|);
  }

  // The card is for that contract, vehicle type and zone, and the date lies in its window, both
  // ends included.
  ghost predicate InForce(card: RateCard, contract: int, vehicleType: string, zone: Option<int>, at: int) {
    && card.key.contract == contract && card.key.vehicleType == vehicleType && card.key.zone == zone
    && card.from <= at && (card.to.Some? ==> at <= card.to.value)
  }

  ghost predicate NewestInForce(cards: seq<RateCard>, contract: int, vehicleType: string, zone: Option<int>, at: int, i: int) {
    && 0 <= i < |cards| && InForce(cards[i], contract, vehicleType, zone, at)
    && forall j | 0 <= j < |cards| && InForce(cards[j], contract, vehicleType, zone, at) :: cards[j].version <= cards[i].version
  }

  ghost predicate NoneInForce(cards: seq<RateCard>, contract: int, vehicleType: string, zone: Option<int>, at: int) {
    forall j | 0 <= j < |cards| :: !InForce(cards[j], contract, vehicleType, zone, at)
  }

  lemma BestExactlyWhen(cards: seq<RateCard>, key: Key, at: int, i: int)
    requires UniqueVersions(cards)
    ensures (i >= 0 && Best(cards, key, at, |cards|) == Some(i)) <==> NewestInForce(cards, key.contract, key.vehicleType, key.zone, at, i)
    ensures Best(cards, key, at, |cards|) == None <==> NoneInForce(cards, key.contract, key.vehicleType, key.zone, at)
  {
    BestIsHighest(cards, key, at, |cards|);
    forall j | 0 <= j < |cards|
      ensures Candidate(cards[j], key, at) <==> InForce(cards[j], key.contract, key.vehicleType, key.zone, at)
    {
    }
    hide Candidate, InForce;
    if NewestInForce(cards, key.contract, key.vehicleType, key.zone, at, i) { HighestIsBest(cards, key, at, i); }
  }

  // The newest card in force for the zone, if a zone is named and has one; otherwise the newest
  // in force without a zone.
  lemma FoundExactlyWhen(cards: seq<RateCard>, contract: int, vehicleType: string, at: int, zone: Option<int>, i: nat)
    requires UniqueVersions(cards)
    ensures FindEffective(cards, contract, vehicleType, at, zone) == Some(i) <==>
              || (zone.Some? && NewestInForce(cards, contract, vehicleType, zone, at, i))
              || ((zone.Some? ==> NoneInForce(cards, contract, vehicleType, zone, at))
                  && NewestInForce(cards, contract, vehicleType, None, at, i))
    ensures FindEffective(cards, contract, vehicleType, at, zone) == None <==>
              (zone.Some? ==> NoneInForce(cards, contract, vehicleType, zone, at)) && NoneInForce(cards, contract, vehicleType, None, at)
  {
    BestExactlyWhen(cards, Key(contract, vehicleType, zone), at, i);
    BestExactlyWhen(cards, Key(contract, vehicleType, None), at, i);
  }

  // ---- Frozen pasts ----

  // Every lookup for a date before `now` finds the same card, under the same terms.
  ghost predicate PastKept(cards: seq<RateCard>, cards': seq<RateCard>, now: int) {
    && |cards| <= |cards'|
    && (forall i | 0 <= i < |cards| :: cards'[i].key == cards[i].key && cards'[i].terms == cards[i].terms)
    && forall contract, vehicleType, at, zone | at < now ::
         FindEffective(cards', contract, vehicleType, at, zone) == FindEffective(cards, contract, vehicleType, at, zone)
  }

  // No date before `now` falls in the window.
  predicate StartsLater(from: int, to: Option<int>, now: int) {
    from >= now || (to.Some? && to.value < from)
  }

  // Closing the card now takes no date before `now` into its window that was outside.
  predicate NotYetExpired(card: RateCard, now: int) {
    card.to.None? || card.to.value >= now - 1 || card.from >= now
  }

  lemma {:induction false} SameCandidates(cards: seq<RateCard>, cards': seq<RateCard>, key: Key, at: int, n: nat)
    requires n <= |cards| && n <= |cards'|
    requires forall i | 0 <= i < n ::
               cards'[i].version == cards[i].version && (Candidate(cards'[i], key, at) <==> Candidate(cards[i], key, at))
    ensures Best(cards', key, at, n) == Best(cards, key, at, n)
  {
    if n > 0 { SameCandidates(cards, cards', key, at, n - 1); }
  }

  // Some card of the key applies at that date with at least that version.
  ghost predicate Covered(cards: seq<RateCard>, key: Key, at: int, version: int) {
    exists j :: 0 <= j < |cards| && Candidate(cards[j], key, at) && cards[j].version >= version
  }

  // An answer above every earlier one breaks the past.
  lemma HigherAnswerBreaksPast(cards: seq<RateCard>, cards': seq<RateCard>, now: int, at: int, i: nat)
    requires |cards| <= |cards'| && i < |cards'| && at < now && cards'[i].EffectiveAt(at)
    requires forall k | 0 <= k < |cards| :: cards'[k].version == cards[k].version
    requires !Covered(cards, cards'[i].key, at, cards'[i].version)
    ensures !PastKept(cards, cards', now)
  {
    var k := cards'[i].key;
    BestIsHighest(cards, k, at, |cards|);
    BestIsHighest(cards', k, at, |cards'|);
    assert Candidate(cards'[i], k, at);
    var found, found' := Best(cards, k, at, |cards|), Best(cards', k, at, |cards'|);
    assert found'.Some? && cards'[found'.value].version >= cards'[i].version;
    assert found != found' by {
      if found.Some? { assert Candidate(cards[found.value], k, at); }
    }
    assert FindEffective(cards', k.contract, k.vehicleType, at, k.zone) == found';
  }

  lemma {:induction false} HighestVersionIsHighest(cards: seq<RateCard>, key: Key, n: nat)
    requires n <= |cards|
    ensures forall j | 0 <= j < n && cards[j].key == key :: cards[j].version <= HighestVersion(cards, key, n)
  {
    if n > 0 { HighestVersionIsHighest(cards, key, n - 1); }
  }

  lemma AddKeepsUnique(cards: seq<RateCard>, key: Key, terms: Terms, from: int, to: Option<int>)
    requires UniqueVersions(cards)
    ensures UniqueVersions(Add(cards, key, terms, from, to))
  {
    HighestVersionIsHighest(cards, key, |cards|);
  }

  // ---- Adding ----

  // Every past date the new card applies to is served by a card at least as new.
  ghost predicate Unnoticed(cards: seq<RateCard>, next: RateCard, now: int) {
    forall at | at < now && next.EffectiveAt(at) :: Covered(cards, next.key, at, next.version)
  }

  lemma AppendKeepsPastExactlyWhen(cards: seq<RateCard>, next: RateCard, now: int)
    ensures PastKept(cards, cards + [next], now) <==> Unnoticed(cards, next, now)
  {
    var cards' := cards + [next];
    if Unnoticed(cards, next, now) {
      forall k, at | at < now ensures Best(cards', k, at, |cards'|) == Best(cards, k, at, |cards|) {
        SameCandidates(cards, cards', k, at, |cards|);
        BestIsHighest(cards, k, at, |cards|);
      }
    } else {
      var at :| at < now && next.EffectiveAt(at) && !Covered(cards, next.key, at, next.version);
      HigherAnswerBreaksPast(cards, cards', now, at, |cards|);
    }
  }

  // A card added now leaves the past alone exactly when it starts no earlier (or never applies).
  lemma AddKeepsPastExactlyWhen(cards: seq<RateCard>, key: Key, terms: Terms, from: int, to: Option<int>, now: int)
    requires UniqueVersions(cards)
    ensures PastKept(cards, Add(cards, key, terms, from, to), now) <==> StartsLater(from, to, now)
  {
    var next := Last(Add(cards, key, terms, from, to));
    HighestVersionIsHighest(cards, key, |cards|);
    AppendKeepsPastExactlyWhen(cards, next, now);
    assert forall at :: !Covered(cards, key, at, next.version);
    if !StartsLater(from, to, now) { assert next.EffectiveAt(from); }
  }

  // ---- Closing ----

  // Closing the card now makes it apply at this past date, where it had run out.
  predicate Reopens(card: RateCard, now: int, at: int) {
    at < now && card.from <= at && card.to.Some? && card.to.value < at
  }

  // At every date so reopened a newer card of the key applies.
  ghost predicate Hidden(cards: seq<RateCard>, id: nat, now: int)
    requires id < |cards|
  {
    forall at | Reopens(cards[id], now, at) :: Covered(cards, cards[id].key, at, cards[id].version + 1)
  }

  lemma NewerStaysBest(cards: seq<RateCard>, id: nat, now: int, at: int)
    requires UniqueVersions(cards) && id < |cards| && at < now
    requires Covered(cards, cards[id].key, at, cards[id].version + 1)
    ensures var k := cards[id].key;
            Best(Close(cards, id, now), k, at, |cards|) == Best(cards, k, at, |cards|)
  {
    var k, cards' := cards[id].key, Close(cards, id, now);
    BestIsHighest(cards, k, at, |cards|);
    var b := Best(cards, k, at, |cards|).value;
    assert cards[b].version > cards[id].version;
    HighestIsBest(cards', k, at, b);
  }

  // Closing any card, superseded or not, leaves the past alone exactly when a newer card of its
  // key applies at every past date that the closing reopens.
  lemma CloseKeepsPastExactlyWhen(cards: seq<RateCard>, id: nat, now: int)
    requires UniqueVersions(cards) && id < |cards|
    ensures PastKept(cards, Close(cards, id, now), now) <==> Hidden(cards, id, now)
  {
    var cards' := Close(cards, id, now);
    if Hidden(cards, id, now) {
      forall k, at | at < now ensures Best(cards', k, at, |cards'|) == Best(cards, k, at, |cards|) {
        if k == cards[id].key && Reopens(cards[id], now, at) {
          NewerStaysBest(cards, id, now, at);
        } else {
          SameCandidates(cards, cards', k, at, |cards|);
        }
      }
    } else {
      var at :| Reopens(cards[id], now, at) && !Covered(cards, cards[id].key, at, cards[id].version + 1);
      assert !Covered(cards, cards[id].key, at, cards[id].version);
      HigherAnswerBreaksPast(cards, cards', now, at, id);
    }
  }

  // Closing a card that had not run out leaves the past alone, superseded or not.
  lemma CloseKeepsPast(cards: seq<RateCard>, id: nat, now: int)
    requires id < |cards| && NotYetExpired(cards[id], now)
    ensures PastKept(cards, Close(cards, id, now), now)
  {
    var cards' := Close(cards, id, now);
    forall k, at | at < now ensures Best(cards', k, at, |cards'|) == Best(cards, k, at, |cards|) {
      SameCandidates(cards, cards', k, at, |cards|);
    }
  }

  // No other card of its key has a higher version.
  predicate IsNewest(cards: seq<RateCard>, id: nat)
    requires id < |cards|
  {
    forall j | 0 <= j < |cards| && cards[j].key == cards[id].key :: cards[j].version <= cards[id].version
  }

  // For the newest card of a key the condition is that it had not already run out.
  lemma NewestHiddenExactlyWhen(cards: seq<RateCard>, id: nat, now: int)
    requires id < |cards| && IsNewest(cards, id)
    ensures Hidden(cards, id, now) <==> NotYetExpired(cards[id], now)
  {
    var c := cards[id];
    if !NotYetExpired(c, now) {
      var at := if c.to.value + 1 > c.from then c.to.value + 1 else c.from;
      assert Reopens(c, now, at);
    }
  }

  // Removing the card that an open-ended edit has closed is harmless, however much later.
  lemma EditedCardHidden(cards: seq<RateCard>, id: nat, edit: Edit, edited: int, now: int)
    requires id < |cards|
    ensures Hidden(Update(cards, id, edit, None, None, edited), id, now)
  {
    var cards' := Update(cards, id, edit, None, None, edited);
    forall at | Reopens(cards'[id], now, at) ensures Covered(cards', cards'[id].key, at, cards'[id].version + 1) {
      assert Candidate(cards'[|cards|], cards'[id].key, at);
    }
  }

  // ---- Editing ----

  // No card of the key has the number of the edit's successor yet.
  predicate NumberFree(cards: seq<RateCard>, id: nat)
    requires id < |cards|
  {
    forall j | 0 <= j < |cards| && cards[j].key == cards[id].key :: cards[j].version != cards[id].version + 1
  }

  lemma UpdateKeepsUniqueExactlyWhen(cards: seq<RateCard>, id: nat, edit: Edit, from: Option<int>, to: Option<int>, now: int)
    requires UniqueVersions(cards) && id < |cards|
    ensures UniqueVersions(Update(cards, id, edit, from, to, now)) <==> NumberFree(cards, id)
  {
    var cards' := Update(cards, id, edit, from, to, now);
    forall j | 0 <= j < |cards| ensures cards'[j].key == cards[j].key && cards'[j].version == cards[j].version {}
    assert cards'[|cards|].key == cards[id].key && cards'[|cards|].version == cards[id].version + 1;
  }

  lemma CloseCovers(cards: seq<RateCard>, id: nat, now: int, at: int)
    requires id < |cards| && at < now
    ensures Covered(Close(cards, id, now), cards[id].key, at, cards[id].version + 1)
       <==> Covered(cards, cards[id].key, at, cards[id].version + 1)
  {
    var k, v, cards' := cards[id].key, cards[id].version + 1, Close(cards, id, now);
    if Covered(cards, k, at, v) {
      var j :| 0 <= j < |cards| && Candidate(cards[j], k, at) && cards[j].version >= v;
      assert cards'[j] == cards[j];
    }
    if Covered(cards', k, at, v) {
      var j :| 0 <= j < |cards| && Candidate(cards'[j], k, at) && cards'[j].version >= v;
      assert cards'[j] == cards[j];
    }
  }

  // Editing any card leaves the past alone exactly when both its parts do: the reopened dates
  // have a newer card, and so have the past dates to which the successor applies.
  lemma UpdateKeepsPastExactlyWhen(cards: seq<RateCard>, id: nat, edit: Edit, from: Option<int>, to: Option<int>, now: int)
    requires UniqueVersions(cards) && id < |cards|
    ensures var next := Last(Update(cards, id, edit, from, to, now));
            PastKept(cards, Update(cards, id, edit, from, to, now), now)
            <==> Hidden(cards, id, now) && Unnoticed(cards, next, now)
  {
    var closed, cards' := Close(cards, id, now), Update(cards, id, edit, from, to, now);
    var next := Last(cards');
    forall at | at < now
      ensures Covered(closed, next.key, at, next.version) <==> Covered(cards, next.key, at, next.version)
    {
      CloseCovers(cards, id, now, at);
    }
    CloseKeepsPastExactlyWhen(cards, id, now);
    AppendKeepsPastExactlyWhen(closed, next, now);
    if !Hidden(cards, id, now) {
      var at :| Reopens(cards[id], now, at) && !Covered(cards, cards[id].key, at, cards[id].version + 1);
      assert !Covered(cards, cards[id].key, at, cards[id].version);
      HigherAnswerBreaksPast(cards, cards', now, at, id);
    } else if !Unnoticed(cards, next, now) {
      var at :| at < now && next.EffectiveAt(at) && !Covered(cards, next.key, at, next.version);
      HigherAnswerBreaksPast(cards, cards', now, at, |cards|);
    }
  }

  // For the newest card: it had not run out, and its successor starts no earlier than now.
  lemma NewestUpdateKeepsPastExactlyWhen(cards: seq<RateCard>, id: nat, edit: Edit, from: Option<int>, to: Option<int>, now: int)
    requires UniqueVersions(cards) && id < |cards| && IsNewest(cards, id)
    ensures PastKept(cards, Update(cards, id, edit, from, to, now), now) <==>
              NotYetExpired(cards[id], now) && (from.Some? ==> StartsLater(from.value, to, now))
  {
    var next := Last(Update(cards, id, edit, from, to, now));
    UpdateKeepsPastExactlyWhen(cards, id, edit, from, to, now);
    NewestHiddenExactlyWhen(cards, id, now);
    assert forall at :: !Covered(cards, next.key, at, next.version);
    if !StartsLater(next.from, to, now) { assert next.EffectiveAt(next.from); }
  }

  // ---- From now on ----

  // A card that has been closed is not found for any later date.
  lemma ClosedNoLongerFound(cards: seq<RateCard>, id: nat, now: int, contract: int, vehicleType: string, at: int, zone: Option<int>)
    requires id < |cards| && now < at
    ensures FindEffective(Close(cards, id, now), contract, vehicleType, at, zone) != Some(id)
  {
    var cards' := Close(cards, id, now);
    assert !cards'[id].EffectiveAt(at);
  }

  // An added card is the one found for every date of its window.
  lemma AddedTakesEffect(cards: seq<RateCard>, key: Key, terms: Terms, from: int, to: Option<int>, at: int)
    requires UniqueVersions(cards) && from <= at && (to.Some? ==> at <= to.value)
    ensures FindEffective(Add(cards, key, terms, from, to), key.contract, key.vehicleType, at, key.zone) == Some(|cards|)
  {
    HighestVersionIsHighest(cards, key, |cards|);
    AddKeepsUnique(cards, key, terms, from, to);
    HighestIsBest(Add(cards, key, terms, from, to), key, at, |cards|);
  }

  // So is the successor of the newest card, with the terms the edit names and the others kept.
  lemma EditTakesEffect(cards: seq<RateCard>, id: nat, edit: Edit, from: Option<int>, to: Option<int>, now: int, at: int)
    requires UniqueVersions(cards) && id < |cards| && IsNewest(cards, id)
    requires (if from.Some? then from.value else now) <= at && (to.Some? ==> at <= to.value)
    ensures var cards' := Update(cards, id, edit, from, to, now);
            && FindEffective(cards', cards[id].key.contract, cards[id].key.vehicleType, at, cards[id].key.zone) == Some(|cards|)
            && cards'[|cards|].terms.model == (if edit.model.Some? then edit.model.value else cards[id].terms.model)
            && cards'[|cards|].terms.rules == (if edit.rules.Some? then edit.rules.value else cards[id].terms.rules)
  {
    UpdateKeepsUniqueExactlyWhen(cards, id, edit, from, to, now);
    HighestIsBest(Update(cards, id, edit, from, to, now), cards[id].key, at, |cards|);
  }

  // ---- Prices that do change ----

  const FLAT := Terms(PerTrip, Rules(None, Some(100.0), None, None, None, [], None))
  const DEARER := Terms(PerTrip, Rules(None, Some(200.0), None, None, None, [], None))
  const VAN := Key(1, "VAN", None)

  // The rate card that a trip of day 15 finds, in days. A card added on day 20 from day 10 on
  // changes it; closing an expired card on day 20 brings it back; and so does editing one.
  lemma PastPricesCanChange()
    ensures var open, ended := RateCard(VAN, FLAT, 0, None, 1), RateCard(VAN, FLAT, 0, Some(5), 1);
            && FindEffective([open], 1, "VAN", 15, None) == Some(0)
            && FindEffective(Add([open], VAN, DEARER, 10, None), 1, "VAN", 15, None) == Some(1)
            && FindEffective([ended], 1, "VAN", 15, None) == None
            && FindEffective(Close([ended], 0, 20), 1, "VAN", 15, None) == Some(0)
            && FindEffective(Update([ended], 0, Edit(None, None), None, None, 20), 1, "VAN", 15, None) == Some(0)
  {
    var open, ended := RateCard(VAN, FLAT, 0, None, 1), RateCard(VAN, FLAT, 0, Some(5), 1);
    assert HighestVersion([open], VAN, 0) == 0 && HighestVersion([open], VAN, 1) == 1;
    forall cards: seq<RateCard> ensures Best(cards, VAN, 15, 0) == None {}
    assert Best([open], VAN, 15, 1) == Some(0);
    assert Best(Add([open], VAN, DEARER, 10, None), VAN, 15, 1) == Some(0);
    assert Best(Close([ended], 0, 20), VAN, 15, 1) == Some(0);
    assert Best(Update([ended], 0, Edit(None, None), None, None, 20), VAN, 15, 1) == Some(0);
  }

  // ---- Runs ----

  datatype Step =
    | AddStep(now: int, key: Key, terms: Terms, from: int, to: Option<int>)
    | UpdateStep(now: int, id: nat, edit: Edit, newFrom: Option<int>, newTo: Option<int>)
    | RemoveStep(now: int, id: nat)

  function Apply(cards: seq<RateCard>, step: Step): seq<RateCard> {
    match step
    case AddStep(_, key, terms, from, to) => Add(cards, key, terms, from, to)
    case UpdateStep(now, id, edit, from, to) => if id < |cards| then Update(cards, id, edit, from, to, now) else cards
    case RemoveStep(now, id) => if id < |cards| then Close(cards, id, now) else cards
  }

  // The operation leaves past lookups alone and version numbers unique: no added card starts in
  // the past, dates reopened by a closing have a newer card, and an edit's number is free.
  ghost predicate Prudent(cards: seq<RateCard>, step: Step) {
    match step
    case AddStep(now, _, _, from, to) => StartsLater(from, to, now)
    case UpdateStep(now, id, edit, from, to) =>
      id < |cards| ==>
        && NumberFree(cards, id) && Hidden(cards, id, now)
        && Unnoticed(cards, Last(Update(cards, id, edit, from, to, now)), now)
    case RemoveStep(now, id) => id < |cards| ==> Hidden(cards, id, now)
  }

  // Nothing weaker would do.
  lemma PrudentExactlyWhen(cards: seq<RateCard>, step: Step)
    requires UniqueVersions(cards)
    ensures Prudent(cards, step) <==> UniqueVersions(Apply(cards, step)) && PastKept(cards, Apply(cards, step), step.now)
  {
    match step
    case AddStep(now, key, terms, from, to) =>
      AddKeepsUnique(cards, key, terms, from, to);
      AddKeepsPastExactlyWhen(cards, key, terms, from, to, now);
    case UpdateStep(now, id, edit, from, to) =>
      if id < |cards| {
        UpdateKeepsUniqueExactlyWhen(cards, id, edit, from, to, now);
        UpdateKeepsPastExactlyWhen(cards, id, edit, from, to, now);
      }
    case RemoveStep(now, id) =>
      if id < |cards| { CloseKeepsPastExactlyWhen(cards, id, now); }
  }

  // A run, as the tables it passes through, with a clock that never runs backwards.
  ghost predicate IsRun(tables: seq<seq<RateCard>>, steps: seq<Step>) {
    && |tables| == |steps| + 1 && UniqueVersions(tables[0])
    && (forall k | 0 <= k < |steps| :: Prudent(tables[k], steps[k]) && tables[k + 1] == Apply(tables[k], steps[k]))
    && (forall j, k | 0 <= j < k < |steps| :: steps[j].now <= steps[k].now)
  }

  lemma {:induction false} RunKeepsUnique(tables: seq<seq<RateCard>>, steps: seq<Step>, k: nat)
    requires IsRun(tables, steps) && k <= |steps|
    ensures UniqueVersions(tables[k])
  {
    if k > 0 {
      RunKeepsUnique(tables, steps, k - 1);
      PrudentExactlyWhen(tables[k - 1], steps[k - 1]);
    }
  }

  // Whatever a contract charged for a date before an operation, it charges after that operation
  // and after every later one.
  lemma {:induction false} PastPricesAreFrozen(tables: seq<seq<RateCard>>, steps: seq<Step>, j: nat, k: nat)
    requires IsRun(tables, steps) && j < k <= |steps|
    ensures PastKept(tables[j], tables[k], steps[j].now)
    decreases k
  {
    RunKeepsUnique(tables, steps, k - 1);
    PrudentExactlyWhen(tables[k - 1], steps[k - 1]);
    if j < k - 1 {
      PastPricesAreFrozen(tables, steps, j, k - 1);
    }
  }

  // ---- The service ----

  datatype Contract = Contract(corporate: int, vendor: int)

  datatype Error = NotFound

  class ContractService {
    const contracts: seq<Contract>
    var cards: seq<RateCard>

    constructor (contracts: seq<Contract>)
      ensures this.contracts == contracts && cards == [] && UniqueVersions(cards)
    {
      this.contracts := contracts;
      cards := [];
    }

    ghost predicate IsParty(actor: int, contract: int) {
      0 <= contract < |contracts| && (contracts[contract].corporate == actor || contracts[contract].vendor == actor)
    }

    // The next version of its key, for a party to the contract.
    method AddRateCard(actor: int, key: Key, terms: Terms, from: int, to: Option<int>) returns (r: Result<nat, Error>)
      modifies this
      ensures cards == (if IsParty(actor, key.contract) then Apply(old(cards), AddStep(from, key, terms, from, to)) else old(cards))
      ensures r == if IsParty(actor, key.contract) then Ok(|old(cards)|) else Err(NotFound)
      ensures r.Ok? ==>
                && |cards| == |old(cards)| + 1 && old(cards) <= cards
                && var card := cards[r.value];
                   && card.key == key && card.terms == terms && card.from == from && card.to == to
                   && (forall j | 0 <= j < r.value && cards[j].key == key :: cards[j].version < card.version)
                   && (card.version == 1 || exists j | 0 <= j < r.value :: cards[j].key == key && cards[j].version == card.version - 1)
      ensures old(UniqueVersions(cards)) ==> UniqueVersions(cards)
    {
      if !(0 <= key.contract < |contracts|) { return Err(NotFound); }
      var contract := contracts[key.contract];
      if contract.corporate != actor && contract.vendor != actor { return Err(NotFound); }
      if UniqueVersions(cards) { AddKeepsUnique(cards, key, terms, from, to); }
      var latest := 0;
      for i := 0 to |cards|
        invariant latest == HighestVersion(cards, key, i)
        invariant latest == 0 || exists j | 0 <= j < i :: cards[j].key == key && cards[j].version == latest
        invariant cards == old(cards)
      {
        if cards[i].key == key && cards[i].version > latest { latest := cards[i].version; }
      }
      HighestVersionIsHighest(cards, key, |cards|);
      cards := cards + [RateCard(key, terms, from, to, latest + 1)];
      r := Ok(|cards| - 1);
    }

    // Closes the card now and leaves everything else of it; its successor starts when the edit
    // says, or now, and runs until the edit says, or for good.
    method UpdateRateCard(actor: int, id: int, edit: Edit, from: Option<int>, to: Option<int>, now: int)
      returns (r: Result<nat, Error>)
      modifies this
      ensures r.Ok? <==> 0 <= id < |old(cards)| && IsParty(actor, old(cards)[id].key.contract)
      ensures r.Ok? ==> cards == Apply(old(cards), UpdateStep(now, id, edit, from, to)) && r.value == |old(cards)|
      ensures r.Ok? ==>
                && |cards| == |old(cards)| + 1 && (forall j | 0 <= j < |old(cards)| && j != id :: cards[j] == old(cards)[j])
                && var before, closed, next := old(cards)[id], cards[id], cards[r.value];
                   && closed.to == Some(now) && closed.key == before.key && closed.terms == before.terms
                   && closed.from == before.from && closed.version == before.version
                   && next.key == before.key && next.version == before.version + 1
                   && next.terms.model == (if edit.model.Some? then edit.model.value else before.terms.model)
                   && next.terms.rules == (if edit.rules.Some? then edit.rules.value else before.terms.rules)
                   && next.from == (if from.Some? then from.value else now) && next.to == to
      ensures r.Err? ==> cards == old(cards)
      ensures r.Ok? && old(UniqueVersions(cards)) ==> (UniqueVersions(cards) <==> NumberFree(old(cards), id))
    {
      if !(0 <= id < |cards|) { return Err(NotFound); }
      var card := cards[id];
      if !(0 <= card.key.contract < |contracts|) { return Err(NotFound); }
      var contract := contracts[card.key.contract];
      if contract.corporate != actor && contract.vendor != actor { return Err(NotFound); }
      if UniqueVersions(cards) { UpdateKeepsUniqueExactlyWhen(cards, id, edit, from, to, now); }
      cards := cards[id := card.(to := Some(now))];
      var successor := card.(
        terms := edit.Of(card.terms),
        from := if from.Some? then from.value else now,
        to := to,
        version := card.version + 1);
      cards := cards + [successor];
      r := Ok(|cards| - 1);
    }

    method RemoveRateCard(actor: int, id: int, now: int) returns (r: Result<nat, Error>)
      modifies this
      ensures r.Ok? <==> 0 <= id < |old(cards)| && IsParty(actor, old(cards)[id].key.contract)
      ensures r.Ok? ==> cards == Apply(old(cards), RemoveStep(now, id))
      ensures r.Ok? ==> cards == old(cards)[id := old(cards)[id].(to := Some(now))]
      ensures r.Err? ==> cards == old(cards)
      ensures old(UniqueVersions(cards)) ==> UniqueVersions(cards)
    {
      if !(0 <= id < |cards|) { return Err(NotFound); }
      var card := cards[id];
      if !(0 <= card.key.contract < |contracts|) { return Err(NotFound); }
      var contract := contracts[card.key.contract];
      if contract.corporate != actor && contract.vendor != actor { return Err(NotFound); }
      cards := cards[id := card.(to := Some(now))];
      r := Ok(id);
    }
  }
}
