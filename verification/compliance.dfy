// Document compliance: the gate every driver, vehicle and guard passes before assignment.
module Compliance {
  import opened Common
  import opened Trips

  const DAY_MS := 24 * 60 * 60 * 1000

  datatype Document = Document(subject: Role, entity: int, docType: string, verified: bool, expiry: Option<int>)

  datatype Scope = GlobalScope | VendorScope(org: int) | CorporateScope(org: int)

  datatype Rule = Rule(scope: Scope, subject: Role, active: bool, docType: string, graceDays: int, blocking: bool)

  datatype Standing = Compliant | Expiring | NonCompliant

  // ---- Selection ----

  function Filter<T(!new)>(items: seq<T>, keep: T -> bool): (r: seq<T>)
    ensures forall x :: x in r <==> x in items && keep(x)
  {
    if items == [] then []
    else (if keep(items[0]) then [items[0]] else []) + Filter(items[1..], keep)
  }

  function ApplicableRules(rules: seq<Rule>, subject: Role, vendor: Option<int>, corporate: int): seq<Rule> {
    Filter(rules, (r: Rule) =>
      && r.subject == subject && r.active
      && match r.scope
         case GlobalScope => true
         case VendorScope(org) => vendor == Some(org)
         case CorporateScope(org) => corporate == org)
  }

  function DocumentFilter(subject: Role, id: int, docType: string): Document -> bool {
    (d: Document) => d.subject == subject && d.entity == id && d.verified && d.docType == docType
  }

  function Documents(documents: seq<Document>, subject: Role, id: int, docType: string): seq<Document> {
    Filter(documents, DocumentFilter(subject, id, docType))
  }

  // The key documents are sorted by; one without an expiry sorts as if it expired at the epoch.
  function SortKey(d: Document): int {
    if d.expiry.Some? then d.expiry.value else 0
  }

  // The document a stable sort by descending key puts first.
  function MatchingDocument(documents: seq<Document>): Option<Document> {
    if documents == [] then None
    else
      var later := MatchingDocument(documents[1..]);
      if later.None? || SortKey(documents[0]) >= SortKey(later.value) then Some(documents[0]) else later
  }

  function StandingOf(match': Option<Document>, graceDays: int, now: int): Standing {
    match match'
    case None => NonCompliant
    case Some(d) =>
      if d.expiry.None? || d.expiry.value > now then Compliant
      else if d.expiry.value + graceDays * DAY_MS > now then Expiring
      else NonCompliant
  }

  function RuleStanding(documents: seq<Document>, rule: Rule, id: int, now: int): Standing {
    StandingOf(MatchingDocument(Documents(documents, rule.subject, id, rule.docType)), rule.graceDays, now)
  }

  // ---- What a rule really asks of the documents of its type ----

  ghost predicate IsMatching(documents: seq<Document>, i: int) {
    && 0 <= i < |documents|
    && (forall j | 0 <= j < i :: SortKey(documents[j]) < SortKey(documents[i]))
    && (forall j | i < j < |documents| :: SortKey(documents[j]) <= SortKey(documents[i]))
  }

  lemma {:induction false} MatchingIsFirstLargest(documents: seq<Document>) returns (i: int)
    requires documents != []
    ensures IsMatching(documents, i) && MatchingDocument(documents) == Some(documents[i])
  {
    if |documents| == 1 {
      i := 0;
    } else {
      var rest := documents[1..];
      var k := MatchingIsFirstLargest(rest);
      assert forall j | 0 <= j < |rest| :: documents[j + 1] == rest[j];
      assert forall j | 0 < j < |documents| :: documents[j] == rest[j - 1];
      i := if SortKey(documents[0]) >= SortKey(rest[k]) then 0 else k + 1;
    }
  }

  // A dated document that is picked before any document without an expiry.
  ghost predicate Shadows(documents: seq<Document>, i: int)
    requires 0 <= i < |documents|
  {
    && documents[i].expiry.Some?
    && (documents[i].expiry.value > 0
        || (documents[i].expiry.value == 0 && forall j | 0 <= j < i :: documents[j].expiry.Some?))
  }

  ghost predicate SomeShadows(documents: seq<Document>) {
    exists i | 0 <= i < |documents| :: Shadows(documents, i)
  }

  ghost predicate SomeUndated(documents: seq<Document>) {
    exists i | 0 <= i < |documents| :: documents[i].expiry.None?
  }

  ghost predicate SomeUnexpired(documents: seq<Document>, now: int) {
    exists i | 0 <= i < |documents| :: documents[i].expiry.Some? && documents[i].expiry.value > now
  }

  lemma UndatedPickedExactlyWhen(documents: seq<Document>)
    requires documents != []
    ensures MatchingDocument(documents).value.expiry.None? <==> SomeUndated(documents) && !SomeShadows(documents)
  {
    var i := MatchingIsFirstLargest(documents);
    if documents[i].expiry.None? {
      forall j | 0 <= j < |documents| ensures !Shadows(documents, j) {
        if j > i { assert documents[i].expiry.None?; }
      }
    } else if SomeUndated(documents) {
      var u :| 0 <= u < |documents| && documents[u].expiry.None?;
      assert Shadows(documents, i) by {
        forall j | 0 <= j < i && documents[i].expiry.value == 0 ensures documents[j].expiry.Some? {
          assert SortKey(documents[j]) < 0;
        }
      }
    }
  }

  // A never-expiring document satisfies the rule only while no dated document outranks it:
  // uploading a second, dated document and letting it lapse takes the compliance away.
  lemma CompliantExactlyWhen(documents: seq<Document>, graceDays: int, now: int)
    requires now >= 0
    ensures StandingOf(MatchingDocument(documents), graceDays, now) == Compliant
       <==> SomeUnexpired(documents, now) || (SomeUndated(documents) && !SomeShadows(documents))
  {
    if documents != [] {
      UndatedPickedExactlyWhen(documents);
      var i := MatchingIsFirstLargest(documents);
      if SomeUnexpired(documents, now) {
        var u :| 0 <= u < |documents| && documents[u].expiry.Some? && documents[u].expiry.value > now;
        assert SortKey(documents[u]) <= SortKey(documents[i]);
      }
    }
  }

  // For instance, a lapsed certificate hides one that never expires.
  lemma LapsedHidesUndated(undated: Document, lapsed: Document, now: int)
    requires undated.expiry.None? && lapsed.expiry.Some? && 0 < lapsed.expiry.value <= now
    ensures StandingOf(MatchingDocument([undated]), 0, now) == Compliant
    ensures StandingOf(MatchingDocument([undated, lapsed]), 0, now) == NonCompliant
  {
    assert [undated, lapsed][1..] == [lapsed];
    assert MatchingDocument([lapsed]) == Some(lapsed);
  }

  lemma NonCompliantExactlyWhen(documents: seq<Document>, graceDays: int, now: int)
    requires now >= 0 && graceDays >= 0
    ensures StandingOf(MatchingDocument(documents), graceDays, now) == NonCompliant
       <==> && (forall i | 0 <= i < |documents| && documents[i].expiry.Some? ::
                  documents[i].expiry.value + graceDays * DAY_MS <= now)
            && (SomeUndated(documents) ==> SomeShadows(documents))
  {
    if documents != [] {
      UndatedPickedExactlyWhen(documents);
      var i := MatchingIsFirstLargest(documents);
      assert documents[i].expiry.None? || documents[i].expiry.Some?;
      if documents[i].expiry.Some? {
        forall j | 0 <= j < |documents| && documents[j].expiry.Some?
          ensures documents[j].expiry.value <= documents[i].expiry.value
        {
          assert SortKey(documents[j]) <= SortKey(documents[i]);
        }
      }
    }
  }

  // ---- The whole evaluation ----

  datatype Evaluation = Evaluation(standing: Standing, blockingFailures: seq<string>, warnings: seq<string>)

  ghost predicate Blocks(documents: seq<Document>, rule: Rule, id: int, now: int) {
    rule.blocking && RuleStanding(documents, rule, id, now) == NonCompliant
  }

  ghost predicate Warns(documents: seq<Document>, rule: Rule, id: int, now: int) {
    RuleStanding(documents, rule, id, now) != Compliant && !Blocks(documents, rule, id, now)
  }

  // The document types of the rules that block, and of those that only warn, in rule order.
  ghost function BlockingTypes(rules: seq<Rule>, documents: seq<Document>, id: int, now: int): seq<string> {
    if rules == [] then []
    else BlockingTypes(rules[..|rules| - 1], documents, id, now)
         + if Blocks(documents, Last(rules), id, now) then [Last(rules).docType] else []
  }

  ghost function WarningTypes(rules: seq<Rule>, documents: seq<Document>, id: int, now: int): seq<string> {
    if rules == [] then []
    else WarningTypes(rules[..|rules| - 1], documents, id, now)
         + if Warns(documents, Last(rules), id, now) then [Last(rules).docType] else []
  }

  lemma {:induction false} BlockingListed(rules: seq<Rule>, documents: seq<Document>, id: int, now: int)
    ensures forall t :: t in BlockingTypes(rules, documents, id, now) <==>
              exists k :: 0 <= k < |rules| && rules[k].docType == t && Blocks(documents, rules[k], id, now)
    ensures BlockingTypes(rules, documents, id, now) == [] <==> forall k | 0 <= k < |rules| :: !Blocks(documents, rules[k], id, now)
  {
    hide Blocks;
    if rules != [] { BlockingListed(rules[..|rules| - 1], documents, id, now); }
  }

  lemma {:induction false} WarningListed(rules: seq<Rule>, documents: seq<Document>, id: int, now: int)
    ensures forall t :: t in WarningTypes(rules, documents, id, now) <==>
              exists k :: 0 <= k < |rules| && rules[k].docType == t && Warns(documents, rules[k], id, now)
    ensures WarningTypes(rules, documents, id, now) == [] <==> forall k | 0 <= k < |rules| :: !Warns(documents, rules[k], id, now)
  {
    hide Warns;
    if rules != [] { WarningListed(rules[..|rules| - 1], documents, id, now); }
  }

  // Compliant iff every applicable rule is; non-compliant iff a blocking rule fails.
  ghost predicate Judges(e: Evaluation, rules: seq<Rule>, documents: seq<Document>, id: int, now: int) {
    && (e.standing == NonCompliant <==> exists r :: r in rules && Blocks(documents, r, id, now))
    && (e.standing == Compliant <==> forall r :: r in rules ==> RuleStanding(documents, r, id, now) == Compliant)
    && e.blockingFailures == BlockingTypes(rules, documents, id, now)
    && e.warnings == WarningTypes(rules, documents, id, now)
  }

  method Evaluate(rules: seq<Rule>, documents: seq<Document>, subject: Role, id: int,
                  vendor: Option<int>, corporate: int, now: int) returns (e: Evaluation)
    ensures Judges(e, ApplicableRules(rules, subject, vendor, corporate), documents, id, now)
    ensures e.standing == NonCompliant <==> !IsEligible(rules, documents, now)(subject, id, vendor, corporate)
  {
    hide RuleStanding, ApplicableRules;
    var applicable := ApplicableRules(rules, subject, vendor, corporate);
    var blockingFailures, warnings := [], [];
    for k := 0 to |applicable|
      invariant blockingFailures == BlockingTypes(applicable[..k], documents, id, now)
      invariant warnings == WarningTypes(applicable[..k], documents, id, now)
    {
      assert applicable[..k + 1][..k] == applicable[..k] && Last(applicable[..k + 1]) == applicable[k];
      var rule := applicable[k];
      var standing := RuleStanding(documents, rule, id, now);
      if standing == NonCompliant && rule.blocking {
        blockingFailures := blockingFailures + [rule.docType];
      } else if standing != Compliant {
        warnings := warnings + [rule.docType];
      }
    }
    var standing := if |blockingFailures| > 0 then NonCompliant else if |warnings| > 0 then Expiring else Compliant;
    e := Evaluation(standing, blockingFailures, warnings);
    assert applicable[..|applicable|] == applicable;
    BlockingListed(applicable, documents, id, now);
    WarningListed(applicable, documents, id, now);
  }

  // The gate as allocation uses it.
  function IsEligible(rules: seq<Rule>, documents: seq<Document>, now: int): Fitness {
    (subject: Role, id: int, vendor: Option<int>, corporate: int) =>
      forall r :: r in ApplicableRules(rules, subject, vendor, corporate) ==>
        !(r.blocking && RuleStanding(documents, r, id, now) == NonCompliant)
  }

  // ---- What makes somebody eligible, document by document ----

  // The rule is switched on, is about this kind of subject, and is for everybody, for the vendor
  // or for the corporate.
  ghost predicate Applies(rule: Rule, subject: Role, vendor: Option<int>, corporate: int) {
    && rule.active && rule.subject == subject
    && (rule.scope.VendorScope? ==> vendor == Some(rule.scope.org))
    && (rule.scope.CorporateScope? ==> rule.scope.org == corporate)
  }

  // Document i is a verified one of that type of that subject.
  ghost predicate Concerns(documents: seq<Document>, i: int, subject: Role, id: int, docType: string) {
    && 0 <= i < |documents| && documents[i].verified
    && documents[i].subject == subject && documents[i].entity == id && documents[i].docType == docType
  }

  // It has not run out, or not longer ago than the days of grace.
  ghost predicate Holds(documents: seq<Document>, i: int, subject: Role, id: int, docType: string, grace: int, now: int) {
    && Concerns(documents, i, subject, id, docType) && documents[i].expiry.Some?
    && (now < documents[i].expiry.value || now < documents[i].expiry.value + grace * 86_400_000)
  }

  // Document j, if dated, is not picked before an undated one.
  ghost predicate Yields(documents: seq<Document>, j: int, subject: Role, id: int, docType: string) {
    0 <= j < |documents| && documents[j].expiry.Some? ==>
      || documents[j].expiry.value < 0
      || (documents[j].expiry.value == 0
          && exists k :: 0 <= k < j && Concerns(documents, k, subject, id, docType) && documents[k].expiry.None?)
  }

  // It has no expiry, and no dated document is picked before it.
  ghost predicate NeverRunsOut(documents: seq<Document>, i: int, subject: Role, id: int, docType: string) {
    && Concerns(documents, i, subject, id, docType) && documents[i].expiry.None?
    && forall j | Concerns(documents, j, subject, id, docType) :: Yields(documents, j, subject, id, docType)
  }

  ghost predicate Satisfied(documents: seq<Document>, subject: Role, id: int, docType: string, grace: int, now: int) {
    || (exists i :: Holds(documents, i, subject, id, docType, grace, now))
    || (exists i :: NeverRunsOut(documents, i, subject, id, docType))
  }

  // Where the kept items stand in the whole list, counted from `base`.
  ghost function Positions<T(!new)>(items: seq<T>, keep: T -> bool, base: int): seq<int> {
    if items == [] then []
    else (if keep(items[0]) then [base] else []) + Positions(items[1..], keep, base + 1)
  }

  lemma {:induction false} PositionsKept<T(!new)>(items: seq<T>, keep: T -> bool, base: int)
    ensures forall p :: p in Positions(items, keep, base) <==> base <= p < base + |items| && keep(items[p - base])
  {
    if items != [] {
      var rest := Positions(items[1..], keep, base + 1);
      PositionsKept(items[1..], keep, base + 1);
      PositionsUnfold(items, keep, base);
      hide Positions;
      forall p ensures p in Positions(items, keep, base) <==> base <= p < base + |items| && keep(items[p - base]) {
        assert p in Positions(items, keep, base) <==> p in rest || (p == base && keep(items[0]));
        if base < p < base + |items| { assert items[1..][p - (base + 1)] == items[p - base]; }
      }
    }
  }

  lemma {:induction false} PositionsInOrder<T(!new)>(items: seq<T>, keep: T -> bool, base: int)
    ensures forall k, l | 0 <= k < l < |Positions(items, keep, base)| :: Positions(items, keep, base)[k] < Positions(items, keep, base)[l]
  {
    if items != [] {
      var rest := Positions(items[1..], keep, base + 1);
      PositionsInOrder(items[1..], keep, base + 1);
      PositionsKept(items[1..], keep, base + 1);
      PositionsUnfold(items, keep, base);
      hide Positions;
      forall k | 0 <= k < |rest| ensures base < rest[k] { assert rest[k] in rest; }
    }
  }

  lemma PositionsUnfold<T(!new)>(items: seq<T>, keep: T -> bool, base: int)
    requires items != []
    ensures Positions(items, keep, base) == (if keep(items[0]) then [base] else []) + Positions(items[1..], keep, base + 1)
  {
  }

  lemma FilterUnfold<T(!new)>(items: seq<T>, keep: T -> bool)
    requires items != []
    ensures Filter(items, keep) == (if keep(items[0]) then [items[0]] else []) + Filter(items[1..], keep)
  {
  }

  lemma {:induction false} PositionsFilter<T(!new)>(items: seq<T>, keep: T -> bool, base: int)
    ensures |Positions(items, keep, base)| == |Filter(items, keep)|
    ensures forall k | 0 <= k < |Filter(items, keep)| ::
              && 0 <= Positions(items, keep, base)[k] - base < |items|
              && Filter(items, keep)[k] == items[Positions(items, keep, base)[k] - base]
  {
    if items != [] {
      PositionsFilter(items[1..], keep, base + 1);
      PositionsUnfold(items, keep, base);
      FilterUnfold(items, keep);
      hide Positions, Filter;
      var rest, kept := Positions(items[1..], keep, base + 1), Filter(items[1..], keep);
      forall k | 0 <= k < |kept| ensures 0 <= rest[k] - base < |items| && kept[k] == items[rest[k] - base] {
        assert items[1..][rest[k] - (base + 1)] == items[rest[k] - base];
      }
    }
  }

  lemma RelevantPositions(documents: seq<Document>, subject: Role, id: int, docType: string) returns (at: seq<int>)
    ensures |at| == |Documents(documents, subject, id, docType)|
    ensures forall k | 0 <= k < |at| ::
              Concerns(documents, at[k], subject, id, docType) && Documents(documents, subject, id, docType)[k] == documents[at[k]]
    ensures forall k, l | 0 <= k < l < |at| :: at[k] < at[l]
    ensures forall i | Concerns(documents, i, subject, id, docType) :: i in at
  {
    var keep := DocumentFilter(subject, id, docType);
    at := Positions(documents, keep, 0);
    PositionsKept(documents, keep, 0);
    PositionsInOrder(documents, keep, 0);
    PositionsFilter(documents, keep, 0);
    forall k | 0 <= k < |at| ensures Concerns(documents, at[k], subject, id, docType) { assert at[k] in at; }
  }

  lemma UnexpiredExactly(documents: seq<Document>, subject: Role, id: int, docType: string, limit: int)
    ensures SomeUnexpired(Documents(documents, subject, id, docType), limit) <==>
              exists i :: Concerns(documents, i, subject, id, docType) && documents[i].expiry.Some? && documents[i].expiry.value > limit
  {
    var at := RelevantPositions(documents, subject, id, docType);
    var docs := Documents(documents, subject, id, docType);
    hide Documents;
    if exists i :: Concerns(documents, i, subject, id, docType) && documents[i].expiry.Some? && documents[i].expiry.value > limit {
      var i :| Concerns(documents, i, subject, id, docType) && documents[i].expiry.Some? && documents[i].expiry.value > limit;
      var k :| 0 <= k < |at| && at[k] == i;
      assert docs[k].expiry.Some? && docs[k].expiry.value > limit;
    }
  }

  lemma ShadowsExactly(documents: seq<Document>, subject: Role, id: int, docType: string, at: seq<int>, docs: seq<Document>, k: int)
    requires |at| == |docs| && 0 <= k < |at|
    requires forall m | 0 <= m < |at| :: Concerns(documents, at[m], subject, id, docType) && docs[m] == documents[at[m]]
    requires forall m, l | 0 <= m < l < |at| :: at[m] < at[l]
    requires forall i | Concerns(documents, i, subject, id, docType) :: i in at
    ensures Shadows(docs, k) <==> !Yields(documents, at[k], subject, id, docType)
  {
    if exists l :: 0 <= l < at[k] && Concerns(documents, l, subject, id, docType) && documents[l].expiry.None? {
      var l :| 0 <= l < at[k] && Concerns(documents, l, subject, id, docType) && documents[l].expiry.None?;
      var m :| 0 <= m < |at| && at[m] == l;
      assert m < k && docs[m].expiry.None?;
    }
    if exists m :: 0 <= m < k && docs[m].expiry.None? {
      var m :| 0 <= m < k && docs[m].expiry.None?;
      assert at[m] < at[k] && Concerns(documents, at[m], subject, id, docType) && documents[at[m]].expiry.None?;
    }
  }

  lemma NeverExactly(documents: seq<Document>, subject: Role, id: int, docType: string)
    ensures var docs := Documents(documents, subject, id, docType);
            SomeUndated(docs) && !SomeShadows(docs) <==> exists i :: NeverRunsOut(documents, i, subject, id, docType)
  {
    var at := RelevantPositions(documents, subject, id, docType);
    var docs := Documents(documents, subject, id, docType);
    hide Documents;
    forall k | 0 <= k < |at| ensures Shadows(docs, k) <==> !Yields(documents, at[k], subject, id, docType) {
      ShadowsExactly(documents, subject, id, docType, at, docs, k);
    }
    hide Shadows, Yields;
    if SomeUndated(docs) && !SomeShadows(docs) {
      var u :| 0 <= u < |docs| && docs[u].expiry.None?;
      assert NeverRunsOut(documents, at[u], subject, id, docType);
    }
    if exists i :: NeverRunsOut(documents, i, subject, id, docType) {
      var i :| NeverRunsOut(documents, i, subject, id, docType);
      var u :| 0 <= u < |at| && at[u] == i;
      assert docs[u].expiry.None?;
    }
  }

  lemma RuleSatisfiedExactly(documents: seq<Document>, rule: Rule, id: int, now: int)
    requires now >= 0
    ensures RuleStanding(documents, rule, id, now) == Compliant <==> Satisfied(documents, rule.subject, id, rule.docType, 0, now)
    ensures RuleStanding(documents, rule, id, now) != NonCompliant <==>
              Satisfied(documents, rule.subject, id, rule.docType, rule.graceDays, now)
  {
    var docs := Documents(documents, rule.subject, id, rule.docType);
    var grace := if rule.graceDays < 0 then 0 else rule.graceDays;
    CompliantExactlyWhen(docs, rule.graceDays, now);
    NonCompliantExactlyWhen(docs, grace, now);
    NegativeGrace(docs, rule.graceDays, now);
    NeverExactly(documents, rule.subject, id, rule.docType);
    UnexpiredExactly(documents, rule.subject, id, rule.docType, now);
    UnexpiredExactly(documents, rule.subject, id, rule.docType, now - grace * DAY_MS);
    HoldsExactly(documents, rule.subject, id, rule.docType, 0, now);
    HoldsExactly(documents, rule.subject, id, rule.docType, rule.graceDays, now);
    hide Documents, Concerns, NeverRunsOut, Holds, SomeShadows;
  }

  // Days of grace below zero are as good as none.
  lemma NegativeGrace(docs: seq<Document>, grace: int, now: int)
    ensures StandingOf(MatchingDocument(docs), grace, now) == NonCompliant
       <==> StandingOf(MatchingDocument(docs), if grace < 0 then 0 else grace, now) == NonCompliant
  {
  }

  lemma HoldsExactly(documents: seq<Document>, subject: Role, id: int, docType: string, grace: int, now: int)
    ensures (exists i :: Holds(documents, i, subject, id, docType, grace, now)) <==>
              exists i :: && Concerns(documents, i, subject, id, docType) && documents[i].expiry.Some?
                          && documents[i].expiry.value > now - (if grace < 0 then 0 else grace) * DAY_MS
  {
    forall i ensures Holds(documents, i, subject, id, docType, grace, now) <==>
        && Concerns(documents, i, subject, id, docType) && documents[i].expiry.Some?
        && documents[i].expiry.value > now - (if grace < 0 then 0 else grace) * DAY_MS {
    }
    hide Holds, Concerns;
  }

  // Somebody may be assigned exactly when every blocking rule that applies finds a document that
  // holds, grace included, or one that never runs out.
  lemma EligibleExactlyWhen(rules: seq<Rule>, documents: seq<Document>, now: int,
                            subject: Role, id: int, vendor: Option<int>, corporate: int)
    requires now >= 0
    ensures IsEligible(rules, documents, now)(subject, id, vendor, corporate) <==>
              forall rule :: rule in rules && Applies(rule, subject, vendor, corporate) && rule.blocking ==>
                Satisfied(documents, subject, id, rule.docType, rule.graceDays, now)
  {
    forall rule ensures rule in ApplicableRules(rules, subject, vendor, corporate) <==> rule in rules && Applies(rule, subject, vendor, corporate) {}
    forall rule: Rule | rule.subject == subject
      ensures RuleStanding(documents, rule, id, now) != NonCompliant <==> Satisfied(documents, subject, id, rule.docType, rule.graceDays, now)
    {
      RuleSatisfiedExactly(documents, rule, id, now);
    }
    hide ApplicableRules, RuleStanding, Satisfied;
  }
}
