/** What the identity routes leave and answer, said of the request and the tables outright: which record, with
    what in it, and for which requests. */
module IdentityContents {
  import opened Numbering
  import opened Identity
  import opened IdentityRuns
  import opened Wrappers
  import Sorting

  // ---- event groups ----

  function OrElse(said: string, unsaid: string): string {
    if |said| == 0 then unsaid else said
  }

  /** A group of just the asked members, whatever their order, with each flag as asked, or said to be unsaid. */
  predicate AsAsked(group: Group, asked: GroupAsk) {
    && multiset(group.members) == multiset(asked.members)
    && group.mutuallyExclusive == OrElse(asked.mutuallyExclusive, "EVENT_GROUP_FLAG_NOT_STATED")
    && group.exhaustive == OrElse(asked.exhaustive, "EVENT_GROUP_FLAG_NOT_STATED")
  }

  /** An instrument held: a contract or a record minted, or one of the seeded equities, cryptocurrencies and
      referential records. */
  lemma HeldExactly(seeds: Seeds, t: Tables, id: string)
    ensures Held(seeds, t, id) <==>
            || (exists k :: k in t.contracts && t.contracts[k].instrumentId == id)
            || (exists k :: k in t.minted && t.minted[k].instrumentId == id)
            || (exists k :: k in seeds.equities && seeds.equities[k].instrumentId == id)
            || (exists k :: k in seeds.crypto && seeds.crypto[k].instrumentId == id)
            || seeds.pusd.instrumentId == id
            || (exists r :: r in seeds.referential && r.instrumentId == id)
  {
    HeldIn(t.contracts, id);
    HeldIn(t.minted, id);
    HeldIn(seeds.equities, id);
    HeldIn(seeds.crypto, id);
    hide IdsOf;
  }

  lemma HeldIn<K>(table: map<K, Record>, id: string)
    ensures id in IdsOf(table).Values <==> exists k :: k in table && table[k].instrumentId == id
  {
    var ids := IdsOf(table);
    if k :| k in table && table[k].instrumentId == id {
      assert k in ids && ids[k] == id;
    }
    if id in ids.Values {
      var k :| k in ids && ids[k] == id;
      assert k in table;
    }
  }

  /** A grouping that is no retry is put to the platform's staff, and changes no group, exactly unless it is of
      a venue known, an event named and one member at least, every member held. */
  lemma GroupQueuedExactly(seeds: Seeds, t: Tables, asked: GroupAsk, now: int)
    requires !Retry(t, asked.requestKey)
    ensures var (t', answer) := GroupStep(seeds, t, asked, now);
            && (answer == PendingReview <==>
                  || (forall v :: v in seeds.eventVenues ==> v.venueId != asked.venueId)
                  || asked.ref == "" || |asked.members| == 0
                  || exists m :: m in asked.members && !Held(seeds, t, m))
            && (answer == PendingReview ==> t'.groups == t.groups)
  {
    hide Held, WithGroup;
  }

  lemma SortedAsAsked(members: seq<string>, asked: seq<string>)
    requires Sorting.Sorted(members, Sorting.StringLe)
    ensures members == Sorted(asked) <==> multiset(members) == multiset(asked)
    ensures multiset(Sorted(asked)) == multiset(asked)
  {
    Sorting.StringLeOrders();
    Sorting.SortSorted(asked, Sorting.StringLe);
    if multiset(members) == multiset(asked) {
      Sorting.SortedUnique(members, Sorted(asked), Sorting.StringLe);
    }
  }

  lemma FlagsAlike(said: string)
    ensures Flag(said) == OrElse(said, "EVENT_GROUP_FLAG_NOT_STATED")
  {
  }

  lemma DiffersExactly(held: Group, asked: GroupAsk)
    requires Sorting.Sorted(held.members, Sorting.StringLe)
    ensures Differs(held, asked) <==> !AsAsked(held, asked)
  {
    SortedAsAsked(held.members, asked.members);
    FlagsAlike(asked.mutuallyExclusive);
    FlagsAlike(asked.exhaustive);
    hide Sorted, Flag, OrElse;
  }

  lemma GroupForIsAsked(t: Tables, asked: GroupAsk, now: int)
    ensures AsAsked(GroupFor(t, asked, now), asked)
    ensures Sorting.Sorted(GroupFor(t, asked, now).members, Sorting.StringLe)
  {
    Sorting.StringLeOrders();
    Sorting.SortSorted(asked.members, Sorting.StringLe);
    FlagsAlike(asked.mutuallyExclusive);
    FlagsAlike(asked.exhaustive);
    hide Flag, OrElse, MintedId;
  }

  /** After an accepted grouping, over every run, the group held is as asked, whether that is a new version or
      not; the groups change exactly where the one held before was not. A new version is the next, keeps the
      group's ID, and carries what was asked. */
  lemma GroupingExactly(seeds: Seeds, mints: set<string>, administrators: set<string>, before: seq<Request>,
                        asked: GroupAsk, now: int)
    requires var t := Run(seeds, Empty(mints, administrators), before);
             !Retry(t, asked.requestKey) && Acceptable(seeds, t, asked)
    ensures var t, key := Run(seeds, Empty(mints, administrators), before), (asked.venueId, asked.ref);
            var t' := GroupStep(seeds, t, asked, now).0;
            && key in t'.groups && AsAsked(t'.groups[key], asked)
            && (t'.groups == t.groups <==> key in t.groups && AsAsked(t.groups[key], asked))
    ensures var t, key := Run(seeds, Empty(mints, administrators), before), (asked.venueId, asked.ref);
            var t' := GroupStep(seeds, t, asked, now).0;
            t'.groups != t.groups ==>
              && key in t'.groups && t'.groups == t.groups[key := t'.groups[key]]
              && NextVersion(t, t'.groups[key], asked, now)
  {
    hide Run, Acceptable, Sorted, NewVersion, GroupFor, Differs, AsAsked, NextVersion, Sorting.Sorted;
    var t, key := Run(seeds, Empty(mints, administrators), before), (asked.venueId, asked.ref);
    RecordsUnderTheirKeys(seeds, mints, administrators, before);
    AcceptedGroups(seeds, t, asked, now);
    GroupForIsAsked(t, asked, now);
    GroupForIsNext(t, asked, now);
    NewVersionExactly(t, asked);
    if key in t.groups {
      GroupIsSorted(seeds, t, key);
      DiffersExactly(t.groups[key], asked);
    }
  }

  /** The version after the one held, if any, of the group with its ID. */
  predicate NextVersion(t: Tables, group: Group, asked: GroupAsk, now: int) {
    var key := (asked.venueId, asked.ref);
    && group.version == (if key in t.groups then t.groups[key].version + 1 else 1)
    && group.groupId == (if key in t.groups then t.groups[key].groupId else MintedId(EventGroup, |t.groups| + 1))
    && group.venueId == asked.venueId && group.ref == asked.ref && group.title == asked.title
    && group.seriesId == asked.seriesId && group.validFrom == OrElse(asked.validFrom, "0") && group.recordTime == now
  }

  lemma GroupForIsNext(t: Tables, asked: GroupAsk, now: int)
    ensures NextVersion(t, GroupFor(t, asked, now), asked, now)
    ensures (asked.venueId, asked.ref) in t.groups ==> GroupFor(t, asked, now) != t.groups[(asked.venueId, asked.ref)]
  {
    hide Sorted, Flag, MintedId;
  }

  lemma NewVersionExactly(t: Tables, asked: GroupAsk)
    ensures NewVersion(t, asked) <==>
            ((asked.venueId, asked.ref) in t.groups ==> Differs(t.groups[(asked.venueId, asked.ref)], asked))
  {
    hide Differs;
  }

  lemma GroupIsSorted(seeds: Seeds, t: Tables, key: (string, string))
    requires Filed(seeds, t) && key in t.groups
    ensures Sorting.Sorted(t.groups[key].members, Sorting.StringLe)
  {
    hide MintedFiled, ContractsFiled, CandidatesFiled, CompaniesFiled, Sorting.Sorted;
  }

  lemma AcceptedGroups(seeds: Seeds, t: Tables, asked: GroupAsk, now: int)
    requires !Retry(t, asked.requestKey) && Acceptable(seeds, t, asked)
    ensures GroupStep(seeds, t, asked, now).0.groups
         == if NewVersion(t, asked) then t.groups[(asked.venueId, asked.ref) := GroupFor(t, asked, now)] else t.groups
  {
    hide Acceptable, NewVersion, GroupFor;
  }

  // ---- what is kept of an answer ----

  /** A request's answer is kept, and nothing else among the answers changes, exactly where it has a key not
      answered before. */
  lemma AnswersAfter(seeds: Seeds, t: Tables, request: Request)
    ensures var key, (t', answer) := request.Key(), Step(seeds, t, request);
            t'.answers == if |key| > 0 && key !in t.answers then t.answers[key := answer] else t.answers
  {
    hide Step, Applied, Allowed;
    var change := StepChange(seeds, t, request);
    AppliedKeepsAnswers(seeds, t, change);
  }

  /** Only a confirmation adds to the FIGIs the source confirms, and only a licence sets the administrators. */
  lemma SettingsAfter(seeds: Seeds, t: Tables, request: Request)
    ensures var t' := Step(seeds, t, request).0;
            && t'.mints == (if request.Confirm? then t.mints + request.figis else t.mints)
            && t'.administrators == if request.Licence? then request.administrators else t.administrators
  {
    if !request.Confirm? && !request.Licence? {
      hide Step, Applied, Allowed;
      var change := SettingsChange(seeds, t, request);
      AppliedSettings(seeds, t, change);
    }
  }

  lemma SettingsChange(seeds: Seeds, t: Tables, request: Request) returns (change: Change)
    requires !request.Confirm? && !request.Licence?
    ensures !change.Confirmed? && !change.Licensed?
    ensures Retry(t, request.Key()) ==> Step(seeds, t, request).0 == t
    ensures !Retry(t, request.Key()) ==>
              var (t', answer) := Step(seeds, t, request);
              t' == Kept(Applied(seeds, t, change), request.Key(), answer)
  {
    change := StepChange(seeds, t, request);
  }

  lemma AppliedSettings(seeds: Seeds, t: Tables, change: Change)
    requires !change.Confirmed? && !change.Licensed?
    ensures Applied(seeds, t, change).mints == t.mints && Applied(seeds, t, change).administrators == t.administrators
  {
    hide MintedRecordFor, ContractFor, CandidateFor, GroupFor, NewVersion;
  }

  // ---- what a minted record says ----

  /** The value of the last field offered for a path, empty where there is none. */
  lemma {:induction false} OfferedLast(fields: seq<(string, string)>, path: string)
    ensures (forall f :: f in fields ==> f.0 != path) ==> Offered(fields, path) == ""
    ensures forall k :: 0 <= k < |fields| && fields[k].0 == path
              && (forall j :: k < j < |fields| ==> fields[j].0 != path)
              ==> Offered(fields, path) == fields[k].1
  {
    if |fields| > 0 {
      OfferedLast(fields[..|fields| - 1], path);
    }
  }

  /** The value of the first identifier of a scheme, empty where there is none. */
  lemma {:induction false} BySchemeFirst(identifiers: seq<Identifier>, scheme: string)
    ensures (forall i :: i in identifiers ==> i.scheme != scheme) ==> ByScheme(identifiers, scheme) == ""
    ensures forall k :: 0 <= k < |identifiers| && identifiers[k].scheme == scheme
              && (forall j :: 0 <= j < k ==> identifiers[j].scheme != scheme)
              ==> ByScheme(identifiers, scheme) == identifiers[k].value
  {
    if |identifiers| > 0 {
      BySchemeFirst(identifiers[1..], scheme);
    }
  }

  /** A contract minted: known to its venue by the symbol asked for, under the venue's MIC where it has one;
      paying one unit of the currency offered, else what the venue pays, else of dollars. */
  lemma ContractMinted(seeds: Seeds, t: Tables, value: string, venue: Venue, fields: seq<(string, string)>)
    requires (value, venue.venueId) !in t.contracts
    ensures var record := WithContract(seeds, t, value, venue, fields).contracts[(value, venue.venueId)];
            var currency, said := Offered(fields, "currency"), Offered(fields, "description");
            && record.instrumentId == MintedId(EventContract, |t.contracts| + 1)
            && record.identifiers
            == [Identifier("ticker", value, OrElse(ByScheme(venue.identifiers, "iso10383"), venue.venueId))]
            && record.currency == OrElse(currency, "USD")
            && record.description == OrElse(said, venue.name + " event contract " + value)
            && record.listingVenueId == venue.venueId
            && (|currency| > 0 ==> record.payout == Some(Payout("1", currency, "")))
            && (|currency| == 0 && venue.venueId in seeds.payouts ==>
                  record.payout == Some(seeds.payouts[venue.venueId]))
            && (|currency| == 0 && venue.venueId !in seeds.payouts ==> record.payout == Some(Payout("1", "USD", "")))
  {
    hide Offered, ByScheme, MintedId;
  }

  /** A candidate minted: its FIGIs, its listing's where one is known, and its ticker on its MIC or, where it
      has none, on the US composite. */
  lemma CandidateMintedSays(seeds: Seeds, t: Tables, seed: CandidateSeed)
    requires seed.ticker !in t.candidates
    ensures var record := WithCandidate(seeds, t, seed).candidates[seed.ticker];
            && record.instrumentId == MintedId(Candidate, |t.candidates| + 1)
            && |record.identifiers| == (if seed.mic == "" then 3 else 4)
            && record.identifiers[0] == Identifier("share_class_figi", seed.shareClass, "")
            && record.identifiers[1] == Identifier("composite_figi", seed.composite, "US")
            && (seed.mic == "" ==>
                  record.identifiers[2] == Identifier("ticker", seed.ticker, seeds.usComposite.venueId))
            && (seed.mic != "" ==>
                  && record.identifiers[2] == Identifier("figi", seed.listing, seed.mic)
                  && record.identifiers[3] == Identifier("ticker", seed.ticker, seed.mic))
            && record.currency == "USD" && record.description == seed.name && record.payout == None
            && record.listingVenueId == if seed.mic == "XNAS" then seeds.xnas.venueId else ""
  {
    hide MintedId;
  }

  /** A record minted from the source's FIGI. */
  lemma FigiMintedSays(t: Tables, figi: string)
    requires figi !in t.minted
    ensures var record := WithMinted(t, figi).minted[figi];
            && record.instrumentId == MintedId(Figi, |t.minted| + 1)
            && record.identifiers == [Identifier("share_class_figi", figi, "")]
            && record.currency == "USD" && record.listingVenueId == "" && record.payout == None
            && record.description == "Minted from the platform's source for " + figi
  {
    hide MintedId;
  }

  // ---- which venue, candidate and company an identifier names ----

  predicate HasCode(venue: Venue, code: string) {
    exists i :: i in venue.identifiers && i.scheme == "iso10383" && i.value == code
  }

  /** A venue is named by its ID, or by its MIC where no venue has that ID; the first that is. */
  lemma {:induction false} EventVenueExactly(venues: seq<Venue>, source: string, k: nat)
    requires k < |venues|
    ensures venues[k].venueId == source && (forall j :: 0 <= j < k ==> venues[j].venueId != source) ==>
              EventVenue(venues, source) == Some(venues[k])
    ensures (forall v :: v in venues ==> v.venueId != source) && HasCode(venues[k], source)
              && (forall j :: 0 <= j < k ==> !HasCode(venues[j], source)) ==>
              EventVenue(venues, source) == Some(venues[k])
    ensures (forall v :: v in venues ==> v.venueId != source && !HasCode(v, source)) ==>
              EventVenue(venues, source) == None
  {
    FirstById(venues, source, k);
    FirstByMic(venues, source, k);
  }

  lemma {:induction false} FirstById(venues: seq<Venue>, id: string, k: nat)
    requires k < |venues|
    ensures venues[k].venueId == id && (forall j :: 0 <= j < k ==> venues[j].venueId != id) ==>
              VenueById(venues, id) == Some(venues[k])
  {
    if k > 0 {
      FirstById(venues[1..], id, k - 1);
    }
  }

  lemma {:induction false} FirstByMic(venues: seq<Venue>, code: string, k: nat)
    requires k < |venues|
    ensures HasCode(venues[k], code) && (forall j :: 0 <= j < k ==> !HasCode(venues[j], code)) ==>
              VenueByMic(venues, code) == Some(venues[k])
  {
    if k > 0 {
      FirstByMic(venues[1..], code, k - 1);
    }
  }

  /** A candidate is named by its composite or its share class FIGI; the first that is. */
  lemma {:induction false} CandidateNamedExactly(candidates: seq<CandidateSeed>, value: string)
    ensures (forall c :: c in candidates ==> value != c.composite && value != c.shareClass) <==>
            CandidateNamed(candidates, value) == None
    ensures forall k :: 0 <= k < |candidates| && value in [candidates[k].composite, candidates[k].shareClass]
              && (forall j :: 0 <= j < k ==> value !in [candidates[j].composite, candidates[j].shareClass])
              ==> CandidateNamed(candidates, value) == Some(candidates[k])
  {
    if |candidates| > 0 {
      CandidateNamedExactly(candidates[1..], value);
    }
  }

  /** A company is named by its CIK, or by its LEI; the first of that LEI, each of its own CIK. */
  lemma {:induction false} CompanyNamedExactly(seeds: Seeds, i: Identifier, k: nat)
    requires k < |seeds.companySource|
    requires forall a, b :: 0 <= a < b < |seeds.companySource| ==>
                              seeds.companySource[a].cik != seeds.companySource[b].cik
    ensures i.scheme == "cik" && seeds.companySource[k].cik == i.value ==>
              CompanyNamed(seeds, i) == Some(seeds.companySource[k])
    ensures i.scheme == "lei" && seeds.companySource[k].lei == i.value
              && (forall j :: 0 <= j < k ==> seeds.companySource[j].lei != i.value) ==>
              CompanyNamed(seeds, i) == Some(seeds.companySource[k])
    ensures i.scheme != "cik" && i.scheme != "lei" ==> CompanyNamed(seeds, i) == None
    ensures i.scheme == "cik" && (forall c :: c in seeds.companySource ==> c.cik != i.value) ==>
              CompanyNamed(seeds, i) == None
    ensures i.scheme == "lei" && (forall c :: c in seeds.companySource ==> c.lei != i.value) ==>
              CompanyNamed(seeds, i) == None
  {
    CikIsOne(seeds.companySource, k);
    FirstLei(seeds.companySource, i.value, k);
    NoLei(seeds.companySource, i.value);
  }

  lemma {:induction false} CikIsOne(companies: seq<Company>, k: nat)
    requires k < |companies|
    requires forall a, b :: 0 <= a < b < |companies| ==> companies[a].cik != companies[b].cik
    ensures CompanyByCik(companies, companies[k].cik) == Some(companies[k])
  {
    if k > 0 {
      CikIsOne(companies[1..], k - 1);
    }
  }

  lemma {:induction false} FirstLei(companies: seq<Company>, lei: string, k: nat)
    requires k < |companies|
    ensures companies[k].lei == lei && (forall j :: 0 <= j < k ==> companies[j].lei != lei) ==>
              CompanyByLei(companies, lei) == Some(companies[k].cik)
  {
    if k > 0 {
      FirstLei(companies[1..], lei, k - 1);
    }
  }

  lemma {:induction false} NoLei(companies: seq<Company>, lei: string)
    ensures (forall c :: c in companies ==> c.lei != lei) ==> CompanyByLei(companies, lei) == None
  {
    if |companies| > 0 {
      NoLei(companies[1..], lei);
    }
  }

  // ---- which record an identifier is answered with ----

  /** The FIGI schemes an equity goes by. */
  predicate EquityScheme(scheme: string) {
    scheme == "figi" || scheme == "share_class_figi" || scheme == "composite_figi"
  }

  /** An identifier that names no contract and no candidate, tried in turn: an equity by any of its FIGIs, a
      cryptocurrency by its CAIP-19 name, pUSD by any identifier of its own, a referential
      record by its code under a licensed administrator or by its ISIN, cash by its code in either case; then
      a FIGI of the source's, a bond and a pool. */
  lemma SettledByExactly(seeds: Seeds, t: Tables, asked: MatchAsk, i: Identifier)
    requires ContractVenue(seeds, asked, i).None? && CandidateNamed(seeds.candidates, i.value).None?
    ensures var answer := Outcome(seeds, t, asked, i).1;
            if EquityScheme(i.scheme) && i.value in seeds.equities then
              answer == Some(InstrumentAnswer(seeds.equities[i.value], false, [seeds.xnas]))
            else if i.scheme == "caip19" && i.value in seeds.crypto then
              answer == Some(InstrumentAnswer(seeds.crypto[i.value], false, []))
            else if exists own :: own in seeds.pusd.identifiers && own == i then
              answer == Some(InstrumentAnswer(seeds.pusd, false, []))
            else if i.scheme == "symbol" && i.source in t.administrators
                    && (i.value, i.source) in seeds.referentialBySymbol then
              answer == Some(InstrumentAnswer(seeds.referentialBySymbol[(i.value, i.source)], false, []))
            else if i.scheme == "isin" && i.value in seeds.referentialByIsin then
              answer == Some(InstrumentAnswer(seeds.referentialByIsin[i.value], false, []))
            else if i.scheme == "iso4217" && Upper(i.value) in seeds.cash then
              answer == Some(InstrumentAnswer(seeds.cash[Upper(i.value)], false, []))
            else if (i.scheme == "figi" || i.scheme == "share_class_figi") && i.value in t.mints then
              answer.Some? && answer.value == InstrumentAnswer(WithMinted(t, i.value).minted[i.value], true, [])
            else if i.scheme == "figi" && i.value in seeds.bonds then
              answer == Some(InstrumentAnswer(seeds.bonds[i.value], true, []))
            else if i.scheme == "agency_pool" && (i.value, i.source) in seeds.pools then
              answer == Some(InstrumentAnswer(seeds.pools[(i.value, i.source)], true, []))
            else answer == None
  {
    hide MintedRecordFor, ContractVenue, CandidateNamed, Upper;
  }

  /** Before any of those, a ticker asked for as an event contract on a venue known: the contract of that
      symbol and venue, new exactly where none was held. */
  lemma ContractSettles(seeds: Seeds, t: Tables, asked: MatchAsk, i: Identifier)
    ensures var venue := EventVenue(seeds.eventVenues, i.source);
            ContractVenue(seeds, asked, i) ==
            if i.scheme == "ticker" && asked.assetClass == "event_contract" && |i.value| > 0 then venue else None
    ensures ContractVenue(seeds, asked, i).Some? ==>
              var venue := ContractVenue(seeds, asked, i).value;
              var key, (t', answer) := (i.value, venue.venueId), Outcome(seeds, t, asked, i);
              && t' == WithContract(seeds, t, i.value, venue, asked.fields) && key in t'.contracts
              && answer == Some(InstrumentAnswer(t'.contracts[key], key !in t.contracts, [venue]))
  {
    hide ContractFor, EventVenue, CandidateNamed, Seeded, BondOrPool, Mints;
  }

  /** Then a candidate, on its listing's venue or the US composite. */
  lemma CandidateSettles(seeds: Seeds, t: Tables, asked: MatchAsk, i: Identifier)
    requires ContractVenue(seeds, asked, i).None? && CandidateNamed(seeds.candidates, i.value).Some?
    ensures var candidate := CandidateNamed(seeds.candidates, i.value).value;
            var (t', answer) := Outcome(seeds, t, asked, i);
            && t' == WithCandidate(seeds, t, candidate) && candidate.ticker in t'.candidates
            && answer.Some? && answer.value.InstrumentAnswer?
            && answer.value.record == t'.candidates[candidate.ticker]
            && answer.value.minted == (candidate.ticker !in t.candidates)
            && answer.value.venues
            == [if t'.candidates[candidate.ticker].listingVenueId == "" then seeds.usComposite else seeds.xnas]
  {
    hide CandidateFor, ContractVenue, CandidateNamed, Seeded, BondOrPool, Mints;
  }

  /** Cash is matched by its code in capitals. */
  lemma UpperCapitals(s: string, k: nat)
    requires k < |s|
    ensures |Upper(s)| == |s|
    ensures Upper(s)[k] as int == if 'a' <= s[k] <= 'z' then s[k] as int - 32 else s[k] as int
  {
  }

  /** A resolve mints a FIGI the source confirms, and nothing besides. */
  lemma ResolvedExactly(seeds: Seeds, t: Tables, scheme: string, value: string)
    ensures var (t', answer) := Step(seeds, t, Resolve(scheme, value));
            if (scheme == "figi" || scheme == "share_class_figi") && value in t.mints then
              && t' == WithMinted(t, value) && value in t'.minted
              && answer == InstrumentAnswer(t'.minted[value], false, [])
            else t' == t
  {
    hide MintedRecordFor;
  }
}
