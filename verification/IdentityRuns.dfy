/** What the identity routes promise over every run of requests. */
module IdentityRuns {
  import opened Numbering
  import opened Identity
  import opened Wrappers
  import Sorting

  /** The tables after a run of requests, one after another. */
  function Run(seeds: Seeds, t: Tables, requests: seq<Request>): Tables {
    if |requests| == 0 then t
    else Step(seeds, Run(seeds, t, requests[..|requests| - 1]), requests[|requests| - 1]).0
  }

  lemma {:induction false} RunConcat(seeds: Seeds, t: Tables, a: seq<Request>, b: seq<Request>)
    ensures Run(seeds, t, a + b) == Run(seeds, Run(seeds, t, a), b)
  {
    hide Step;
    if |b| == 0 {
      assert a + b == a;
    } else {
      assert (a + b)[..|a + b| - 1] == a + b[..|b| - 1];
      RunConcat(seeds, t, a, b[..|b| - 1]);
    }
  }

  // ---- every step changes one table once, and perhaps keeps an answer ----

  datatype Change =
    | Same
    | Mint(figi: string)
    | Contract(value: string, venue: Venue, fields: seq<(string, string)>)
    | NewCandidate(seed: CandidateSeed)
    | NewCompany(company: Company)
    | NewGroup(asked: GroupAsk, now: int)
    | Confirmed(figis: set<string>)
    | Licensed(names: set<string>)

  function Applied(seeds: Seeds, t: Tables, change: Change): Tables {
    match change
    case Same => t
    case Mint(figi) => WithMinted(t, figi)
    case Contract(value, venue, fields) => WithContract(seeds, t, value, venue, fields)
    case NewCandidate(seed) => WithCandidate(seeds, t, seed)
    case NewCompany(company) => WithCompany(t, company)
    case NewGroup(asked, now) => WithGroup(t, asked, now)
    case Confirmed(figis) => t.(mints := t.mints + figis)
    case Licensed(names) => t.(administrators := names)
  }

  /** Contracts are on venues the module knows, and candidates and companies are its sources' own. */
  predicate FromSeeds(seeds: Seeds, change: Change) {
    && (change.Contract? ==> change.venue in seeds.eventVenues)
    && (change.NewCandidate? ==> change.seed in seeds.candidates)
    && (change.NewCompany? ==> change.company in seeds.companySource)
  }

  predicate Allowed(seeds: Seeds, t: Tables, change: Change) {
    FromSeeds(seeds, change) && (change.NewGroup? ==> Acceptable(seeds, t, change.asked))
  }

  lemma {:induction false} MatchedChange(seeds: Seeds, t: Tables, asked: MatchAsk, identifiers: seq<Identifier>)
    returns (change: Change)
    ensures !change.NewGroup? && !change.NewCompany? && !change.Confirmed? && !change.Licensed?
    ensures FromSeeds(seeds, change)
    ensures Matched(seeds, t, asked, identifiers).0 == Applied(seeds, t, change)
  {
    hide MintedRecordFor, ContractFor, CandidateFor, CandidateNamed, ContractVenue, Seeded, BondOrPool, Mints;
    change := Same;
    if |identifiers| > 0 {
      var i := identifiers[0];
      OutcomeUnsettled(seeds, t, asked, i);
      if ContractVenue(seeds, asked, i).Some? {
        change := Contract(i.value, ContractVenue(seeds, asked, i).value, asked.fields);
      } else if CandidateNamed(seeds.candidates, i.value).Some? {
        change := NewCandidate(CandidateNamed(seeds.candidates, i.value).value);
      } else if Seeded(seeds, t, i).Some? {
      } else if Mints(t, i) {
        change := Mint(i.value);
      } else if BondOrPool(seeds, i).None? {
        change := MatchedChange(seeds, t, asked, identifiers[1..]);
      }
    }
  }

  lemma {:induction false} CompanyChange(seeds: Seeds, t: Tables, identifiers: seq<Identifier>) returns (change: Change)
    ensures !change.NewGroup? && !change.Confirmed? && !change.Licensed? && FromSeeds(seeds, change)
    ensures CompanyMatched(seeds, t, identifiers).0 == Applied(seeds, t, change)
  {
    hide CompanyNamed;
    change := Same;
    if |identifiers| > 0 {
      var named := CompanyNamed(seeds, identifiers[0]);
      if named.Some? {
        change := NewCompany(named.value);
      } else {
        change := CompanyChange(seeds, t, identifiers[1..]);
      }
    }
  }

  /** A request is answered as before and changes nothing, or it makes one allowed change and its answer is
      kept under its key. */
  lemma StepChange(seeds: Seeds, t: Tables, request: Request) returns (change: Change)
    ensures Allowed(seeds, t, change) && (change.NewCompany? ==> request.AskCompany?)
    ensures (change.Confirmed? ==> request.Confirm?) && (change.Licensed? ==> request.Licence?)
    ensures Retry(t, request.Key()) ==> Step(seeds, t, request) == (t, t.answers[request.Key()])
    ensures !Retry(t, request.Key()) ==>
              var (t', answer) := Step(seeds, t, request);
              t' == Kept(Applied(seeds, t, change), request.Key(), answer)
  {
    hide Matched, CompanyMatched, Acceptable, WithGroup, WithMinted;
    change := Same;
    match request
    case AskMatch(asked) => change := MatchedChange(seeds, t, asked, asked.identifiers);
    case AskCompany(asked) => change := CompanyChange(seeds, t, asked.identifiers);
    case AskGroup(asked, now) => if Acceptable(seeds, t, asked) { change := NewGroup(asked, now); }
    case Resolve(scheme, value) => if Mints(t, Identifier(scheme, value, "")) { change := Mint(value); }
    case Confirm(figis) => change := Confirmed(figis);
    case Licence(administrators) => change := Licensed(administrators);
  }

  lemma AppliedKeepsAnswers(seeds: Seeds, t: Tables, change: Change)
    ensures Applied(seeds, t, change).answers == t.answers
  {
    hide MintedRecordFor, ContractFor, CandidateFor, GroupFor, NewVersion;
  }

  // ---- an answer, once given ----

  lemma {:induction false} AnswersStay(seeds: Seeds, t: Tables, requests: seq<Request>, key: string)
    requires key in t.answers
    ensures key in Run(seeds, t, requests).answers && Run(seeds, t, requests).answers[key] == t.answers[key]
  {
    hide Step, Applied;
    if |requests| > 0 {
      var before, last := requests[..|requests| - 1], requests[|requests| - 1];
      AnswersStay(seeds, t, before, key);
      var change := StepChange(seeds, Run(seeds, t, before), last);
      AppliedKeepsAnswers(seeds, Run(seeds, t, before), change);
    }
  }

  /** Once a request with a key is answered, every later request with that key, on whichever of the three
      routes and whatever came between, is answered the same and changes no table. */
  lemma AnsweredForEver(seeds: Seeds, t: Tables, first: Request, between: seq<Request>, again: Request)
    requires first.Key() != "" && again.Key() == first.Key()
    ensures var (t1, answer) := Step(seeds, t, first);
            var t2 := Run(seeds, t1, between);
            Step(seeds, t2, again) == (t2, answer)
  {
    hide Step, Applied;
    var change := StepChange(seeds, t, first);
    AppliedKeepsAnswers(seeds, t, change);
    var t1 := Step(seeds, t, first).0;
    AnswersStay(seeds, t1, between, first.Key());
    var _ := StepChange(seeds, Run(seeds, t1, between), again);
  }

  // ---- the tables only grow, and what they hold stays ----

  ghost predicate Within<K(!new), V(!new)>(a: map<K, V>, b: map<K, V>) {
    forall k :: k in a ==> k in b && a[k] == b[k]
  }

  /** A group keeps its ID, and its version never falls. */
  ghost predicate GroupsWithin(a: map<(string, string), Group>, b: map<(string, string), Group>) {
    forall k :: k in a ==> k in b && a[k].groupId == b[k].groupId && a[k].version <= b[k].version
  }

  ghost predicate Grows(a: Tables, b: Tables) {
    && Within(a.minted, b.minted) && Within(a.contracts, b.contracts) && Within(a.candidates, b.candidates)
    && Within(a.companies, b.companies) && Within(a.answers, b.answers) && GroupsWithin(a.groups, b.groups)
  }

  lemma WithinAdds<K(!new), V(!new)>(table: map<K, V>, key: K, value: V)
    ensures Within(table, table)
    ensures key !in table ==> Within(table, table[key := value])
  {
  }

  lemma GrowsSelf(t: Tables)
    ensures Grows(t, t)
  {
  }

  lemma AppliedGrows(seeds: Seeds, t: Tables, change: Change)
    ensures Grows(t, Applied(seeds, t, change))
  {
    hide MintedRecordFor, ContractFor, CandidateFor, GroupFor, Within, GroupsWithin, Grows, NewVersion;
    GrowsSelf(t);
    match change
    case Mint(figi) => MintGrows(t, figi);
    case Contract(value, venue, fields) => ContractGrows(seeds, t, value, venue, fields);
    case NewCandidate(seed) => CandidateGrows(seeds, t, seed);
    case NewCompany(company) => CompanyGrows(t, company);
    case NewGroup(asked, now) => GroupGrows(t, asked, now);
    case Confirmed(figis) => SettingsGrow(t, t.mints + figis, t.administrators);
    case Licensed(names) => SettingsGrow(t, t.mints, names);
    case Same =>
  }

  lemma SettingsGrow(t: Tables, mints: set<string>, administrators: set<string>)
    ensures Grows(t, t.(mints := mints)) && Grows(t, t.(administrators := administrators))
  {
    hide Within, GroupsWithin;
    GrowsSelf(t);
  }

  lemma MintGrows(t: Tables, figi: string)
    ensures Grows(t, WithMinted(t, figi))
  {
    hide MintedRecordFor, Within, GroupsWithin;
    GrowsSelf(t);
    WithinAdds(t.minted, figi, MintedRecordFor(figi, |t.minted| + 1));
  }

  lemma ContractGrows(seeds: Seeds, t: Tables, value: string, venue: Venue, fields: seq<(string, string)>)
    ensures Grows(t, WithContract(seeds, t, value, venue, fields))
  {
    hide ContractFor, Within, GroupsWithin;
    GrowsSelf(t);
    WithinAdds(t.contracts, (value, venue.venueId), ContractFor(seeds, value, venue, fields, |t.contracts| + 1));
  }

  lemma CandidateGrows(seeds: Seeds, t: Tables, seed: CandidateSeed)
    ensures Grows(t, WithCandidate(seeds, t, seed))
  {
    hide CandidateFor, Within, GroupsWithin;
    GrowsSelf(t);
    WithinAdds(t.candidates, seed.ticker, CandidateFor(seeds, seed, |t.candidates| + 1));
  }

  lemma CompanyGrows(t: Tables, company: Company)
    ensures Grows(t, WithCompany(t, company))
  {
    hide Within, GroupsWithin;
    GrowsSelf(t);
    WithinAdds(t.companies, company.cik, company);
  }

  lemma GroupGrows(t: Tables, asked: GroupAsk, now: int)
    ensures Grows(t, WithGroup(t, asked, now))
  {
    hide Within, Sorted, Flag, MintedId, Or, NewVersion;
    GrowsSelf(t);
  }

  lemma KeptGrows(t: Tables, key: string, answer: Answer)
    requires !Retry(t, key)
    ensures Grows(t, Kept(t, key, answer))
  {
  }

  lemma GrowsOn(a: Tables, b: Tables, c: Tables)
    requires Grows(a, b) && Grows(b, c)
    ensures Grows(a, c)
  {
  }

  lemma StepGrows(seeds: Seeds, t: Tables, request: Request)
    ensures Grows(t, Step(seeds, t, request).0)
  {
    hide Step, Grows, Applied;
    var change := StepChange(seeds, t, request);
    if Retry(t, request.Key()) {
      AppliedGrows(seeds, t, Same);
      NothingApplied(seeds, t);
    } else {
      AppliedGrows(seeds, t, change);
      AppliedKeepsAnswers(seeds, t, change);
      KeptGrows(Applied(seeds, t, change), request.Key(), Step(seeds, t, request).1);
      GrowsOn(t, Applied(seeds, t, change), Step(seeds, t, request).0);
    }
  }

  lemma NothingApplied(seeds: Seeds, t: Tables)
    ensures Applied(seeds, t, Same) == t
  {
  }

  /** Over every run, minted instruments, contracts, candidates, companies and answers are kept as they
      were, and groups keep their IDs. */
  lemma {:induction false} RunGrows(seeds: Seeds, t: Tables, requests: seq<Request>)
    ensures Grows(t, Run(seeds, t, requests))
  {
    hide Step, Grows, Applied;
    if |requests| == 0 {
      AppliedGrows(seeds, t, Same);
      NothingApplied(seeds, t);
    } else {
      var before := Run(seeds, t, requests[..|requests| - 1]);
      RunGrows(seeds, t, requests[..|requests| - 1]);
      StepGrows(seeds, before, requests[|requests| - 1]);
      GrowsOn(t, before, Run(seeds, t, requests));
    }
  }

  // ---- the tables' numbering ----

  function GroupIds(groups: map<(string, string), Group>): map<(string, string), string> {
    map k | k in groups :: groups[k].groupId
  }

  ghost predicate AllHeld(seeds: Seeds, t: Tables, members: seq<string>) {
    forall m :: m in members ==> Held(seeds, t, m)
  }

  ghost predicate GroupsHeld(seeds: Seeds, t: Tables) {
    forall k :: k in t.groups ==> AllHeld(seeds, t, t.groups[k].members)
  }

  ghost predicate AllNumbered(t: Tables) {
    && Numbered(Figi, IdsOf(t.minted)) && Numbered(EventContract, IdsOf(t.contracts))
    && Numbered(Candidate, IdsOf(t.candidates)) && Numbered(EventGroup, GroupIds(t.groups))
  }

  ghost predicate Valid(seeds: Seeds, t: Tables) {
    AllNumbered(t) && GroupsHeld(seeds, t)
  }

  lemma NumberedRecord<K(!new)>(kind: Kind, table: map<K, Record>, key: K, record: Record)
    requires Numbered(kind, IdsOf(table)) && key !in table
    requires record.instrumentId == MintedId(kind, |table| + 1)
    ensures Numbered(kind, IdsOf(table[key := record]))
  {
    hide Numbered, MintedId;
    assert IdsOf(table).Keys == table.Keys;
    assert |IdsOf(table)| == |IdsOf(table).Keys| == |table.Keys| == |table|;
    NextNumber(kind, IdsOf(table), key);
    assert IdsOf(table[key := record]) == IdsOf(table)[key := record.instrumentId];
  }

  lemma NumberedGroup(groups: map<(string, string), Group>, key: (string, string), group: Group)
    requires Numbered(EventGroup, GroupIds(groups))
    requires group.groupId == if key in groups then groups[key].groupId else MintedId(EventGroup, |groups| + 1)
    ensures Numbered(EventGroup, GroupIds(groups[key := group]))
  {
    hide Numbered, MintedId;
    var ids := GroupIds(groups);
    assert ids.Keys == groups.Keys;
    assert |ids| == |ids.Keys| == |groups.Keys| == |groups|;
    if key in groups {
      assert GroupIds(groups[key := group]) == ids;
    } else {
      NextNumber(EventGroup, ids, key);
      assert GroupIds(groups[key := group]) == ids[key := group.groupId];
    }
  }

  /** What is held stays held while the tables grow. */
  lemma HeldStays(seeds: Seeds, a: Tables, b: Tables, id: string)
    requires Grows(a, b) && Held(seeds, a, id)
    ensures Held(seeds, b, id)
  {
    if id in IdsOf(a.contracts).Values {
      var k :| k in IdsOf(a.contracts) && IdsOf(a.contracts)[k] == id;
      assert k in IdsOf(b.contracts) && IdsOf(b.contracts)[k] == id;
    } else if id in IdsOf(a.minted).Values {
      var k :| k in IdsOf(a.minted) && IdsOf(a.minted)[k] == id;
      assert k in IdsOf(b.minted) && IdsOf(b.minted)[k] == id;
    }
  }

  lemma AllHeldStays(seeds: Seeds, a: Tables, b: Tables, members: seq<string>)
    requires Grows(a, b) && AllHeld(seeds, a, members)
    ensures AllHeld(seeds, b, members)
  {
    hide Held, Grows;
    forall m | m in members
      ensures Held(seeds, b, m)
    {
      HeldStays(seeds, a, b, m);
    }
  }

  lemma SortedSameMembers(members: seq<string>)
    ensures forall m :: m in Sorted(members) <==> m in members
  {
    var sorted := Sorted(members);
    forall m
      ensures m in sorted <==> m in members
    {
      assert m in multiset(sorted) <==> m in multiset(members);
    }
  }

  lemma MintNumbered(t: Tables, figi: string)
    requires AllNumbered(t)
    ensures AllNumbered(WithMinted(t, figi))
  {
    hide Numbered, MintedId;
    if figi !in t.minted {
      NumberedRecord(Figi, t.minted, figi, MintedRecordFor(figi, |t.minted| + 1));
    }
  }

  lemma ContractNumbered(seeds: Seeds, t: Tables, value: string, venue: Venue, fields: seq<(string, string)>)
    requires AllNumbered(t)
    ensures AllNumbered(WithContract(seeds, t, value, venue, fields))
  {
    hide Numbered, MintedId, ByScheme, Offered, Or;
    if (value, venue.venueId) !in t.contracts {
      NumberedRecord(EventContract, t.contracts, (value, venue.venueId),
                     ContractFor(seeds, value, venue, fields, |t.contracts| + 1));
    }
  }

  lemma CandidateNumbered(seeds: Seeds, t: Tables, seed: CandidateSeed)
    requires AllNumbered(t)
    ensures AllNumbered(WithCandidate(seeds, t, seed))
  {
    hide Numbered, MintedId, CandidateIdentifiers;
    if seed.ticker !in t.candidates {
      NumberedRecord(Candidate, t.candidates, seed.ticker, CandidateFor(seeds, seed, |t.candidates| + 1));
    }
  }

  lemma GroupNumbered(t: Tables, asked: GroupAsk, now: int)
    requires AllNumbered(t)
    ensures AllNumbered(WithGroup(t, asked, now))
  {
    hide Numbered, MintedId, Sorted, Flag, Or, NewVersion;
    if NewVersion(t, asked) {
      NumberedGroup(t.groups, GroupKey(asked), GroupFor(t, asked, now));
    }
  }

  lemma AppliedNumbered(seeds: Seeds, t: Tables, change: Change)
    requires AllNumbered(t)
    ensures AllNumbered(Applied(seeds, t, change))
  {
    hide Numbered, WithMinted, WithContract, WithCandidate, WithGroup;
    match change
    case Mint(figi) => MintNumbered(t, figi);
    case Contract(value, venue, fields) => ContractNumbered(seeds, t, value, venue, fields);
    case NewCandidate(seed) => CandidateNumbered(seeds, t, seed);
    case NewGroup(asked, now) => GroupNumbered(t, asked, now);
    case _ =>
  }

  /** A group of the tables after a change is one of those before, or is what a grouping asked. */
  lemma AppliedGroups(seeds: Seeds, t: Tables, change: Change, key: (string, string))
    requires key in Applied(seeds, t, change).groups
    ensures var groups := Applied(seeds, t, change).groups;
            || (key in t.groups && groups[key] == t.groups[key])
            || (change.NewGroup? && groups[key].members == Sorted(change.asked.members))
  {
    hide MintedRecordFor, ContractFor, CandidateFor, Sorted, Flag, MintedId, NewVersion;
  }

  lemma AppliedGroupsHeld(seeds: Seeds, t: Tables, t': Tables, change: Change)
    requires GroupsHeld(seeds, t) && Allowed(seeds, t, change) && Grows(t, t')
    requires t'.groups == Applied(seeds, t, change).groups
    ensures GroupsHeld(seeds, t')
  {
    forall k | k in t'.groups
      ensures AllHeld(seeds, t', t'.groups[k].members)
    {
      hide Held, Grows, Sorted, Applied;
      AppliedGroups(seeds, t, change, k);
      if k in t.groups && t'.groups[k] == t.groups[k] {
        AllHeldStays(seeds, t, t', t.groups[k].members);
      } else {
        SortedSameMembers(change.asked.members);
        AllHeldStays(seeds, t, t', change.asked.members);
      }
    }
  }

  lemma StepKeepsValid(seeds: Seeds, t: Tables, request: Request)
    requires Valid(seeds, t)
    ensures Valid(seeds, Step(seeds, t, request).0)
  {
    hide Step, Numbered, GroupsHeld, Grows, Applied, Allowed;
    var change := StepChange(seeds, t, request);
    if !Retry(t, request.Key()) {
      AppliedNumbered(seeds, t, change);
      StepGrows(seeds, t, request);
      AppliedGroupsHeld(seeds, t, Step(seeds, t, request).0, change);
    }
  }

  lemma EmptyValid(seeds: Seeds, mints: set<string>, administrators: set<string>)
    ensures Valid(seeds, Empty(mints, administrators))
  {
    var none: map<string, Record>, contracts: map<(string, string), Record> := map[], map[];
    assert IdsOf(none) == map[] && IdsOf(contracts) == map[];
  }

  lemma {:induction false} RunValid(seeds: Seeds, t: Tables, requests: seq<Request>)
    requires Valid(seeds, t)
    ensures Valid(seeds, Run(seeds, t, requests))
  {
    hide Step, Valid;
    if |requests| > 0 {
      RunValid(seeds, t, requests[..|requests| - 1]);
      StepKeepsValid(seeds, Run(seeds, t, requests[..|requests| - 1]), requests[|requests| - 1]);
    }
  }

  // ---- every record under its own key ----

  ghost predicate MintedFiled(minted: map<string, Record>) {
    forall figi :: figi in minted ==> minted[figi].identifiers == [Identifier("share_class_figi", figi, "")]
  }

  /** A contract is listed on the venue it is filed under, which knows it by the symbol it is filed under,
      and pays out. */
  ghost predicate ContractFiled(seeds: Seeds, key: (string, string), record: Record) {
    && record.listingVenueId == key.1 && record.payout.Some?
    && |record.identifiers| == 1 && record.identifiers[0].scheme == "ticker" && record.identifiers[0].value == key.0
    && exists v :: v in seeds.eventVenues && v.venueId == key.1
  }

  ghost predicate ContractsFiled(seeds: Seeds, contracts: map<(string, string), Record>) {
    forall key :: key in contracts ==> ContractFiled(seeds, key, contracts[key])
  }

  ghost predicate CandidateFiled(seeds: Seeds, ticker: string, record: Record) {
    exists seed :: seed in seeds.candidates && seed.ticker == ticker && record.description == seed.name
                && Identifier("share_class_figi", seed.shareClass, "") in record.identifiers
                && Identifier("composite_figi", seed.composite, "US") in record.identifiers
  }

  ghost predicate CandidatesFiled(seeds: Seeds, candidates: map<string, Record>) {
    forall ticker :: ticker in candidates ==> CandidateFiled(seeds, ticker, candidates[ticker])
  }

  ghost predicate CompaniesFiled(seeds: Seeds, companies: map<string, Company>) {
    forall cik :: cik in companies ==> companies[cik].cik == cik && companies[cik] in seeds.companySource
  }

  /** A group is of a known venue's event, of one member at least, its members in order. */
  ghost predicate GroupFiled(seeds: Seeds, key: (string, string), group: Group) {
    && group.venueId == key.0 && group.ref == key.1 != "" && group.version >= 1
    && |group.members| > 0 && Sorting.Sorted(group.members, Sorting.StringLe)
    && group.mutuallyExclusive != "" && group.exhaustive != ""
    && exists v :: v in seeds.eventVenues && v.venueId == key.0
  }

  ghost predicate GroupsFiled(seeds: Seeds, groups: map<(string, string), Group>) {
    forall key :: key in groups ==> GroupFiled(seeds, key, groups[key])
  }

  ghost predicate Filed(seeds: Seeds, t: Tables) {
    && MintedFiled(t.minted) && ContractsFiled(seeds, t.contracts) && CandidatesFiled(seeds, t.candidates)
    && CompaniesFiled(seeds, t.companies) && GroupsFiled(seeds, t.groups)
  }

  lemma ContractIsFiled(seeds: Seeds, value: string, venue: Venue, fields: seq<(string, string)>, n: nat)
    requires venue in seeds.eventVenues
    ensures ContractFiled(seeds, (value, venue.venueId), ContractFor(seeds, value, venue, fields, n))
  {
    hide Offered, ByScheme, Or, MintedId;
  }

  lemma CandidateIsFiled(seeds: Seeds, seed: CandidateSeed, n: nat)
    requires seed in seeds.candidates
    ensures CandidateFiled(seeds, seed.ticker, CandidateFor(seeds, seed, n))
  {
    hide MintedId;
    var ids := CandidateIdentifiers(seeds, seed);
    assert ids[0] == Identifier("share_class_figi", seed.shareClass, "");
    assert ids[1] == Identifier("composite_figi", seed.composite, "US");
  }

  lemma GroupIsFiled(seeds: Seeds, t: Tables, asked: GroupAsk, now: int)
    requires Acceptable(seeds, t, asked)
    ensures GroupFiled(seeds, GroupKey(asked), GroupFor(t, asked, now))
  {
    hide Held, MintedId;
    Sorting.StringLeOrders();
    Sorting.SortSorted(asked.members, Sorting.StringLe);
  }

  lemma ContractStaysFiled(seeds: Seeds, t: Tables, value: string, venue: Venue, fields: seq<(string, string)>)
    requires ContractsFiled(seeds, t.contracts) && venue in seeds.eventVenues
    ensures ContractsFiled(seeds, WithContract(seeds, t, value, venue, fields).contracts)
  {
    hide ContractFor, ContractFiled;
    ContractIsFiled(seeds, value, venue, fields, |t.contracts| + 1);
  }

  lemma CandidateStaysFiled(seeds: Seeds, t: Tables, seed: CandidateSeed)
    requires CandidatesFiled(seeds, t.candidates) && seed in seeds.candidates
    ensures CandidatesFiled(seeds, WithCandidate(seeds, t, seed).candidates)
  {
    hide CandidateFor, CandidateFiled;
    CandidateIsFiled(seeds, seed, |t.candidates| + 1);
  }

  lemma GroupStaysFiled(seeds: Seeds, t: Tables, asked: GroupAsk, now: int)
    requires GroupsFiled(seeds, t.groups) && Acceptable(seeds, t, asked)
    ensures GroupsFiled(seeds, WithGroup(t, asked, now).groups)
  {
    hide GroupFor, GroupFiled, Acceptable, NewVersion;
    GroupIsFiled(seeds, t, asked, now);
  }

  lemma FigiStaysFiled(t: Tables, figi: string)
    requires MintedFiled(t.minted)
    ensures MintedFiled(WithMinted(t, figi).minted)
  {
    hide MintedId;
  }

  lemma CompanyStaysFiled(seeds: Seeds, t: Tables, company: Company)
    requires CompaniesFiled(seeds, t.companies) && company in seeds.companySource
    ensures CompaniesFiled(seeds, WithCompany(t, company).companies)
  {
  }

  lemma AppliedFiled(seeds: Seeds, t: Tables, change: Change)
    requires Filed(seeds, t) && Allowed(seeds, t, change)
    ensures Filed(seeds, Applied(seeds, t, change))
  {
    hide ContractFor, CandidateFor, GroupFor, MintedRecordFor, NewVersion, Acceptable;
    hide MintedFiled, ContractsFiled, CandidatesFiled, CompaniesFiled, GroupsFiled;
    match change
    case Mint(figi) => FigiStaysFiled(t, figi);
    case Contract(value, venue, fields) => ContractStaysFiled(seeds, t, value, venue, fields);
    case NewCandidate(seed) => CandidateStaysFiled(seeds, t, seed);
    case NewCompany(company) => CompanyStaysFiled(seeds, t, company);
    case NewGroup(asked, now) => GroupStaysFiled(seeds, t, asked, now);
    case _ =>
  }

  lemma StepFiled(seeds: Seeds, t: Tables, request: Request)
    requires Filed(seeds, t)
    ensures Filed(seeds, Step(seeds, t, request).0)
  {
    hide Step, Applied, Allowed, MintedFiled, ContractsFiled, CandidatesFiled, CompaniesFiled, GroupsFiled;
    var change := StepChange(seeds, t, request);
    if !Retry(t, request.Key()) {
      AppliedFiled(seeds, t, change);
    }
  }

  /** Over every run from empty tables, what is held under a key is that key's: a FIGI's record carries that
      FIGI, a contract its symbol and its venue, a candidate the FIGIs it is named by, a company its CIK, and
      a group its event, with members in order. */
  lemma {:induction false} RecordsUnderTheirKeys(seeds: Seeds, mints: set<string>, administrators: set<string>,
                                                 requests: seq<Request>)
    ensures Filed(seeds, Run(seeds, Empty(mints, administrators), requests))
  {
    if |requests| > 0 {
      hide Step, Filed;
      RecordsUnderTheirKeys(seeds, mints, administrators, requests[..|requests| - 1]);
      StepFiled(seeds, Run(seeds, Empty(mints, administrators), requests[..|requests| - 1]), requests[|requests| - 1]);
    }
  }

  // ---- one ID, one key, for ever ----

  /** What a minted ID can name: a FIGI, a contract's symbol on its venue, a candidate's ticker, or a
      venue's event. */
  datatype Named = NamedFigi(figi: string) | NamedContract(contract: (string, string))
                 | NamedCandidate(ticker: string) | NamedGroup(event: (string, string))

  predicate Names(t: Tables, id: string, key: Named) {
    match key
    case NamedFigi(figi) => figi in t.minted && t.minted[figi].instrumentId == id
    case NamedContract(contract) => contract in t.contracts && t.contracts[contract].instrumentId == id
    case NamedCandidate(ticker) => ticker in t.candidates && t.candidates[ticker].instrumentId == id
    case NamedGroup(event) => event in t.groups && t.groups[event].groupId == id
  }

  function KindOf(key: Named): Kind {
    match key
    case NamedFigi(_) => Figi
    case NamedContract(_) => EventContract
    case NamedCandidate(_) => Candidate
    case NamedGroup(_) => EventGroup
  }

  lemma NumberedAt<K(!new)>(kind: Kind, ids: map<K, string>, k: K) returns (n: nat)
    requires Numbered(kind, ids) && k in ids
    ensures ids[k] == MintedId(kind, n)
  {
    assert NumberedUpTo(kind, ids[k], |ids|);
    n :| ids[k] == MintedId(kind, n);
  }

  lemma NamedNumber(seeds: Seeds, t: Tables, id: string, key: Named) returns (n: nat)
    requires Valid(seeds, t) && Names(t, id, key)
    ensures id == MintedId(KindOf(key), n)
  {
    hide Numbered, MintedId, GroupsHeld;
    match key
    case NamedFigi(figi) => n := NumberedAt(Figi, IdsOf(t.minted), figi);
    case NamedContract(contract) => n := NumberedAt(EventContract, IdsOf(t.contracts), contract);
    case NamedCandidate(ticker) => n := NumberedAt(Candidate, IdsOf(t.candidates), ticker);
    case NamedGroup(event) => n := NumberedAt(EventGroup, GroupIds(t.groups), event);
  }

  lemma ApartAt<K(!new)>(kind: Kind, ids: map<K, string>, j: K, k: K)
    requires Numbered(kind, ids) && j in ids && k in ids && ids[j] == ids[k]
    ensures j == k
  {
  }

  lemma NamesOne(seeds: Seeds, t: Tables, id: string, key1: Named, key2: Named)
    requires Valid(seeds, t) && Names(t, id, key1) && Names(t, id, key2)
    ensures key1 == key2
  {
    var n1 := NamedNumber(seeds, t, id, key1);
    var n2 := NamedNumber(seeds, t, id, key2);
    MintedIdInjective(KindOf(key1), n1, KindOf(key2), n2);
    hide Numbered, MintedId, GroupsHeld;
    match key1
    case NamedFigi(figi) => ApartAt(Figi, IdsOf(t.minted), figi, key2.figi);
    case NamedContract(contract) => ApartAt(EventContract, IdsOf(t.contracts), contract, key2.contract);
    case NamedCandidate(ticker) => ApartAt(Candidate, IdsOf(t.candidates), ticker, key2.ticker);
    case NamedGroup(event) => ApartAt(EventGroup, GroupIds(t.groups), event, key2.event);
  }

  lemma NamesStay(a: Tables, b: Tables, id: string, key: Named)
    requires Grows(a, b) && Names(a, id, key)
    ensures Names(b, id, key)
  {
  }

  /** From empty tables, an ID that names a key after some requests names it after any more, and never
      comes to name another: in its own table, in another of the three instrument tables, or among the
      groups. */
  lemma OneIdOneKey(seeds: Seeds, mints: set<string>, administrators: set<string>,
                    before: seq<Request>, more: seq<Request>, id: string, key: Named, other: Named)
    requires Names(Run(seeds, Empty(mints, administrators), before), id, key)
    ensures var later := Run(seeds, Empty(mints, administrators), before + more);
            Names(later, id, key) && (Names(later, id, other) ==> other == key)
  {
    hide Run, Valid, Grows, Names;
    var t := Empty(mints, administrators);
    EmptyValid(seeds, mints, administrators);
    RunValid(seeds, t, before + more);
    RunConcat(seeds, t, before, more);
    RunGrows(seeds, Run(seeds, t, before), more);
    var later := Run(seeds, t, before + more);
    NamesStay(Run(seeds, t, before), later, id, key);
    if Names(later, id, other) {
      NamesOne(seeds, later, id, key, other);
    }
  }

  // ---- event groups over a run ----

  /** A grouping of `key` that is no retry and is not put to the staff. */
  predicate Accepts(seeds: Seeds, t: Tables, request: Request, key: (string, string)) {
    && request.AskGroup? && GroupKey(request.group) == key
    && !Retry(t, request.Key()) && Acceptable(seeds, t, request.group)
  }

  /** Such a grouping that says something new. */
  predicate Revises(seeds: Seeds, t: Tables, request: Request, key: (string, string)) {
    Accepts(seeds, t, request, key) && NewVersion(t, request.group)
  }

  function Revisions(seeds: Seeds, t: Tables, requests: seq<Request>, key: (string, string)): nat {
    if |requests| == 0 then 0
    else
      var before, last := requests[..|requests| - 1], requests[|requests| - 1];
      Revisions(seeds, t, before, key) + if Revises(seeds, Run(seeds, t, before), last, key) then 1 else 0
  }

  function VersionOf(t: Tables, key: (string, string)): nat {
    if key in t.groups then t.groups[key].version else 0
  }

  /** Only groupings change groups. */
  lemma OthersKeepGroups(seeds: Seeds, t: Tables, request: Request)
    requires !request.AskGroup?
    ensures Step(seeds, t, request).0.groups == t.groups
  {
    hide Matched, CompanyMatched, WithMinted, Applied;
    match request
    case AskMatch(asked) =>
      var change := MatchedChange(seeds, t, asked, asked.identifiers);
      MatchedGroups(seeds, t, change);
    case AskCompany(asked) =>
      var change := CompanyChange(seeds, t, asked.identifiers);
      MatchedGroups(seeds, t, change);
    case Resolve(scheme, value) => MintedGroups(t, value);
    case Confirm(_) =>
    case Licence(_) =>
  }

  /** A step leaves a group as it is unless it revises it; a revision is the next version, with the asked
      members sorted and the asked flags. */
  lemma GroupAfter(seeds: Seeds, t: Tables, request: Request, key: (string, string))
    ensures Revises(seeds, t, request, key) ==>
              var t' := Step(seeds, t, request).0;
              && key in t'.groups && t'.groups[key].version == VersionOf(t, key) + 1
              && t'.groups[key].members == Sorted(request.group.members)
              && !Differs(t'.groups[key], request.group)
    ensures !Revises(seeds, t, request, key) ==>
              var t' := Step(seeds, t, request).0;
              (key in t'.groups <==> key in t.groups) && (key in t.groups ==> t'.groups[key] == t.groups[key])
  {
    if request.AskGroup? {
      hide Step, WithGroup, Acceptable, Retry, NewVersion, Differs, Sorted;
      GroupingKeeps(seeds, t, request);
      GroupedAt(t, request.group, request.now, key);
    } else {
      hide Step;
      OthersKeepGroups(seeds, t, request);
    }
  }

  /** An accepted grouping is what changes groups. */
  lemma GroupingKeeps(seeds: Seeds, t: Tables, request: Request)
    requires request.AskGroup?
    ensures Step(seeds, t, request).0.groups
         == if !Retry(t, request.Key()) && Acceptable(seeds, t, request.group)
            then WithGroup(t, request.group, request.now).groups else t.groups
  {
    hide Acceptable, WithGroup;
  }

  lemma GroupedAt(t: Tables, asked: GroupAsk, now: int, key: (string, string))
    ensures var groups := WithGroup(t, asked, now).groups;
            if key == GroupKey(asked) && NewVersion(t, asked) then
              && key in groups && groups[key].version == VersionOf(t, key) + 1
              && groups[key].members == Sorted(asked.members) && !Differs(groups[key], asked)
            else (key in groups <==> key in t.groups) && (key in t.groups ==> groups[key] == t.groups[key])
  {
    hide Sorted, Flag, MintedId, Or;
  }

  lemma MintedGroups(t: Tables, figi: string)
    ensures WithMinted(t, figi).groups == t.groups
  {
  }

  lemma MatchedGroups(seeds: Seeds, t: Tables, change: Change)
    requires !change.NewGroup?
    ensures Applied(seeds, t, change).groups == t.groups
  {
    hide MintedRecordFor, ContractFor, CandidateFor;
  }

  /** The version of a group counts its revisions: from none held, versions go 1, 2, 3 without a gap, and a
      new one appears exactly with a request whose sorted members or whose flags differ. */
  lemma {:induction false} VersionsCountRevisions(seeds: Seeds, t: Tables, requests: seq<Request>,
                                                  key: (string, string))
    ensures VersionOf(Run(seeds, t, requests), key) == VersionOf(t, key) + Revisions(seeds, t, requests, key)
  {
    hide Step, Revises;
    if |requests| > 0 {
      var before, last := requests[..|requests| - 1], requests[|requests| - 1];
      VersionsCountRevisions(seeds, t, before, key);
      GroupAfter(seeds, Run(seeds, t, before), last, key);
    }
  }

  ghost predicate AcceptedAt(seeds: Seeds, t: Tables, requests: seq<Request>, i: nat, key: (string, string))
    requires i < |requests|
  {
    Accepts(seeds, Run(seeds, t, requests[..i]), requests[i], key)
  }

  ghost predicate AcceptedIn(seeds: Seeds, t: Tables, requests: seq<Request>, key: (string, string)) {
    exists i: nat :: i < |requests| && AcceptedAt(seeds, t, requests, i, key)
  }

  lemma AcceptedInLonger(seeds: Seeds, t: Tables, requests: seq<Request>, key: (string, string))
    requires |requests| > 0
    ensures AcceptedIn(seeds, t, requests, key)
       <==> AcceptedIn(seeds, t, requests[..|requests| - 1], key) || AcceptedAt(seeds, t, requests, |requests| - 1, key)
  {
    hide Accepts, Run;
    var before := requests[..|requests| - 1];
    forall i: nat | i < |before|
      ensures AcceptedAt(seeds, t, requests, i, key) <==> AcceptedAt(seeds, t, before, i, key)
    {
      assert before[..i] == requests[..i];
    }
  }

  /** A group comes to be held exactly by an accepted grouping. */
  lemma {:induction false} HeldExactlyWhenAccepted(seeds: Seeds, t: Tables, requests: seq<Request>,
                                                   key: (string, string))
    requires key !in t.groups
    ensures key in Run(seeds, t, requests).groups <==> AcceptedIn(seeds, t, requests, key)
  {
    hide Step, Accepts, AcceptedIn;
    if |requests| == 0 {
      NoneAccepted(seeds, t, key);
    } else {
      var before, last := requests[..|requests| - 1], requests[|requests| - 1];
      HeldExactlyWhenAccepted(seeds, t, before, key);
      GroupAfter(seeds, Run(seeds, t, before), last, key);
      AcceptedInLonger(seeds, t, requests, key);
      if key !in Run(seeds, t, before).groups {
        FirstRevises(seeds, Run(seeds, t, before), last, key);
      }
    }
  }

  lemma NoneAccepted(seeds: Seeds, t: Tables, key: (string, string))
    ensures !AcceptedIn(seeds, t, [], key)
  {
  }

  lemma FirstRevises(seeds: Seeds, t: Tables, request: Request, key: (string, string))
    requires key !in t.groups
    ensures Accepts(seeds, t, request, key) <==> Revises(seeds, t, request, key)
  {
  }

  /** From empty tables, an accepted grouping that is no retry is answered with the group held after it,
      and as minted exactly when no grouping of the same event was accepted before. */
  lemma MintedExactlyFirst(seeds: Seeds, mints: set<string>, administrators: set<string>,
                           before: seq<Request>, request: Request, key: (string, string))
    requires Accepts(seeds, Run(seeds, Empty(mints, administrators), before), request, key)
    ensures var t := Empty(mints, administrators);
            var (t', answer) := Step(seeds, Run(seeds, t, before), request);
            key in t'.groups && answer == GroupAnswer(t'.groups[key], !AcceptedIn(seeds, t, before, key))
  {
    hide Run, Acceptable, AcceptedIn, Sorted, Flag, MintedId;
    HeldExactlyWhenAccepted(seeds, Empty(mints, administrators), before, key);
  }

  lemma SameMembers(seeds: Seeds, t: Tables, asked: GroupAsk, members: seq<string>)
    requires multiset(members) == multiset(asked.members)
    ensures Sorted(members) == Sorted(asked.members)
    ensures Acceptable(seeds, t, asked.(members := members)) == Acceptable(seeds, t, asked)
  {
    hide Held;
    Sorting.StringLeOrders();
    Sorting.SortOrderless(members, asked.members, Sorting.StringLe);
    assert |members| == |multiset(members)| && |asked.members| == |multiset(asked.members)|;
    forall m
      ensures m in members <==> m in asked.members
    {
      assert m in multiset(members) <==> m in multiset(asked.members);
    }
  }

  /** The order a grouping names its members in never matters. */
  lemma MemberOrderNeverMatters(seeds: Seeds, t: Tables, asked: GroupAsk, members: seq<string>, now: int)
    requires multiset(members) == multiset(asked.members)
    ensures GroupStep(seeds, t, asked.(members := members), now) == GroupStep(seeds, t, asked, now)
  {
    hide Acceptable, Sorted, Flag, MintedId, Or;
    SameMembers(seeds, t, asked, members);
    var other := asked.(members := members);
    assert NewVersion(t, other) == NewVersion(t, asked);
    assert GroupFor(t, other, now) == GroupFor(t, asked, now);
    hide NewVersion, GroupFor;
  }

  /** Every member of every version of a group ever held is held in all later states, and the group is
      still held under its ID. */
  lemma MembersStayHeld(seeds: Seeds, mints: set<string>, administrators: set<string>,
                        before: seq<Request>, more: seq<Request>, key: (string, string), member: string)
    requires var t := Run(seeds, Empty(mints, administrators), before);
             key in t.groups && member in t.groups[key].members
    ensures var t := Run(seeds, Empty(mints, administrators), before);
            var later := Run(seeds, Empty(mints, administrators), before + more);
            Held(seeds, later, member) && key in later.groups && later.groups[key].groupId == t.groups[key].groupId
  {
    hide Run, Held, Numbered;
    var empty := Empty(mints, administrators);
    EmptyValid(seeds, mints, administrators);
    RunValid(seeds, empty, before);
    RunConcat(seeds, empty, before, more);
    RunGrows(seeds, Run(seeds, empty, before), more);
    assert AllHeld(seeds, Run(seeds, empty, before), Run(seeds, empty, before).groups[key].members);
    HeldStays(seeds, Run(seeds, empty, before), Run(seeds, empty, before + more), member);
  }
}
