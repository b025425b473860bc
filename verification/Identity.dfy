/** The stand-in platform's identity routes (`deploy/harness/platform.py`): instruments, companies and event
    groups matched or minted over the tables the routes share, each request one step. */
module Identity {
  import opened Numbering
  import opened Wrappers
  import Sorting

  // ---- records ----

  datatype Identifier = Identifier(scheme: string, value: string, source: string)

  datatype Venue = Venue(venueId: string, name: string, identifiers: seq<Identifier>)

  datatype Payout = Payout(amount: string, currencyCode: string, instrumentId: string)

  datatype Record = Record(
    instrumentId: string, identifiers: seq<Identifier>, currency: string, description: string,
    listingVenueId: string, payout: Option<Payout>)

  datatype Group = Group(
    groupId: string, venueId: string, ref: string, title: string, members: seq<string>,
    mutuallyExclusive: string, exhaustive: string, seriesId: string, version: nat, validFrom: string,
    recordTime: int)

  datatype Company = Company(companyId: string, name: string, cik: string, lei: string, formerNames: seq<string>)

  datatype CandidateSeed = CandidateSeed(
    ticker: string, name: string, mic: string, composite: string, shareClass: string, listing: string)

  /** What the module holds from the start and no request changes. A dictionary whose order the source reads
      is a sequence here. */
  datatype Seeds = Seeds(
    eventVenues: seq<Venue>, payouts: map<string, Payout>, equities: map<string, Record>,
    crypto: map<string, Record>, pusd: Record, referential: seq<Record>,
    referentialBySymbol: map<(string, string), Record>, referentialByIsin: map<string, Record>,
    cash: map<string, Record>, bonds: map<string, Record>, pools: map<(string, string), Record>,
    companySource: seq<Company>, candidates: seq<CandidateSeed>, xnas: Venue, usComposite: Venue)

  datatype Answer =
    | PendingReview
    | GroupAnswer(group: Group, minted: bool)
    | InstrumentAnswer(record: Record, minted: bool, venues: seq<Venue>)
    | CompanyAnswer(company: Company, minted: bool)
    | Acknowledged

  /** The tables requests change. */
  datatype Tables = Tables(
    answers: map<string, Answer>, minted: map<string, Record>, contracts: map<(string, string), Record>,
    groups: map<(string, string), Group>, companies: map<string, Company>, candidates: map<string, Record>,
    mints: set<string>, administrators: set<string>)

  // ---- requests ----

  datatype GroupAsk = GroupAsk(
    requestKey: string, members: seq<string>, venueId: string, ref: string, mutuallyExclusive: string,
    exhaustive: string, title: string, seriesId: string, validFrom: string)

  datatype MatchAsk = MatchAsk(
    requestKey: string, identifiers: seq<Identifier>, assetClass: string, fields: seq<(string, string)>)

  datatype CompanyAsk = CompanyAsk(requestKey: string, identifiers: seq<Identifier>)

  datatype Request =
    | AskGroup(group: GroupAsk, now: int)
    | AskMatch(instrument: MatchAsk)
    | AskCompany(company: CompanyAsk)
    | Resolve(scheme: string, value: string)
    | Confirm(figis: set<string>)
    | Licence(administrators: set<string>)
  {
    /** The request's key, empty where its route keeps no answers. */
    function Key(): string {
      match this
      case AskGroup(g, _) => g.requestKey
      case AskMatch(m) => m.requestKey
      case AskCompany(c) => c.requestKey
      case _ => ""
    }
  }

  // ---- minting an instrument, once per key ----

  function IdsOf<K>(table: map<K, Record>): map<K, string> {
    map k | k in table :: table[k].instrumentId
  }

  function MintedRecordFor(figi: string, n: nat): Record {
    Record(MintedId(Figi, n), [Identifier("share_class_figi", figi, "")], "USD",
           "Minted from the platform's source for " + figi, "", None)
  }

  /** `minted_record`: the table, the record then in it. */
  function WithMinted(t: Tables, figi: string): Tables {
    if figi in t.minted then t
    else t.(minted := t.minted[figi := MintedRecordFor(figi, |t.minted| + 1)])
  }

  /** The last value offered for a path, empty where none is. */
  function Offered(fields: seq<(string, string)>, path: string): string {
    if |fields| == 0 then ""
    else if fields[|fields| - 1].0 == path then fields[|fields| - 1].1
    else Offered(fields[..|fields| - 1], path)
  }

  function ByScheme(identifiers: seq<Identifier>, scheme: string): string {
    if |identifiers| == 0 then ""
    else if identifiers[0].scheme == scheme then identifiers[0].value
    else ByScheme(identifiers[1..], scheme)
  }

  function Or(a: string, b: string): string {
    if a != "" then a else b
  }

  function ContractFor(seeds: Seeds, value: string, venue: Venue, fields: seq<(string, string)>, n: nat): Record {
    var offered := Offered(fields, "currency");
    var payout :=
      if offered != "" then Payout("1", offered, "")
      else if venue.venueId in seeds.payouts then seeds.payouts[venue.venueId]
      else Payout("1", "USD", "");
    Record(MintedId(EventContract, n),
           [Identifier("ticker", value, Or(ByScheme(venue.identifiers, "iso10383"), venue.venueId))],
           Or(offered, "USD"),
           Or(Offered(fields, "description"), venue.name + " event contract " + value),
           venue.venueId, Some(payout))
  }

  /** `event_contract` */
  function WithContract(seeds: Seeds, t: Tables, value: string, venue: Venue, fields: seq<(string, string)>): Tables {
    var key := (value, venue.venueId);
    if key in t.contracts then t
    else t.(contracts := t.contracts[key := ContractFor(seeds, value, venue, fields, |t.contracts| + 1)])
  }

  function CandidateIdentifiers(seeds: Seeds, seed: CandidateSeed): seq<Identifier> {
    [Identifier("share_class_figi", seed.shareClass, ""), Identifier("composite_figi", seed.composite, "US")]
    + if seed.mic != "" then [Identifier("figi", seed.listing, seed.mic), Identifier("ticker", seed.ticker, seed.mic)]
      else [Identifier("ticker", seed.ticker, seeds.usComposite.venueId)]
  }

  function CandidateFor(seeds: Seeds, seed: CandidateSeed, n: nat): Record {
    Record(MintedId(Candidate, n), CandidateIdentifiers(seeds, seed), "USD", seed.name,
           if seed.mic == "XNAS" then seeds.xnas.venueId else "", None)
  }

  function WithCandidate(seeds: Seeds, t: Tables, seed: CandidateSeed): Tables {
    if seed.ticker in t.candidates then t
    else t.(candidates := t.candidates[seed.ticker := CandidateFor(seeds, seed, |t.candidates| + 1)])
  }

  /** The first candidate a FIGI names. */
  function CandidateNamed(candidates: seq<CandidateSeed>, value: string): (r: Option<CandidateSeed>)
    ensures r.Some? ==> r.value in candidates
  {
    if |candidates| == 0 then None
    else if value == candidates[0].composite || value == candidates[0].shareClass then Some(candidates[0])
    else CandidateNamed(candidates[1..], value)
  }

  /** `event_venue`: by its ID, else the first whose MIC it is. */
  function EventVenue(venues: seq<Venue>, source: string): (r: Option<Venue>)
    ensures r.Some? ==> r.value in venues
  {
    var byId := VenueById(venues, source);
    if byId.Some? then byId else VenueByMic(venues, source)
  }

  function VenueById(venues: seq<Venue>, id: string): (r: Option<Venue>)
    ensures r.Some? ==> r.value in venues && r.value.venueId == id
    ensures r.None? ==> forall v :: v in venues ==> v.venueId != id
  {
    if |venues| == 0 then None
    else if venues[0].venueId == id then Some(venues[0])
    else VenueById(venues[1..], id)
  }

  predicate HasMic(venue: Venue, source: string) {
    exists i :: i in venue.identifiers && i.scheme == "iso10383" && i.value == source
  }

  function VenueByMic(venues: seq<Venue>, source: string): (r: Option<Venue>)
    ensures r.Some? ==> r.value in venues && HasMic(r.value, source)
    ensures r.None? ==> forall v :: v in venues ==> !HasMic(v, source)
  {
    if |venues| == 0 then None
    else if HasMic(venues[0], source) then Some(venues[0])
    else VenueByMic(venues[1..], source)
  }

  /** `held_instrument` */
  predicate Held(seeds: Seeds, t: Tables, id: string) {
    || id in IdsOf(t.contracts).Values
    || id in IdsOf(t.minted).Values
    || id in IdsOf(seeds.equities).Values
    || id in IdsOf(seeds.crypto).Values
    || id == seeds.pusd.instrumentId
    || exists r :: r in seeds.referential && r.instrumentId == id
  }

  // ---- matching ----

  /** `value.upper()`, of ASCII letters. */
  function Upper(s: string): string {
    seq(|s|, i requires 0 <= i < |s| => if 'a' <= s[i] <= 'z' then s[i] - ('a' - 'A') else s[i])
  }

  /** The seeded referential record an identifier names. */
  function Referential(seeds: Seeds, t: Tables, i: Identifier): Option<Record> {
    if i.scheme == "symbol" && i.source in t.administrators then
      if (i.value, i.source) in seeds.referentialBySymbol then Some(seeds.referentialBySymbol[(i.value, i.source)])
      else None
    else if i.scheme == "isin" && i.value in seeds.referentialByIsin then Some(seeds.referentialByIsin[i.value])
    else None
  }

  /** What no table is changed for: the seeded records an identifier names, in the order they are tried. */
  function Seeded(seeds: Seeds, t: Tables, i: Identifier): Option<Answer> {
    if i.scheme in {"figi", "share_class_figi", "composite_figi"} && i.value in seeds.equities then
      Some(InstrumentAnswer(seeds.equities[i.value], false, [seeds.xnas]))
    else if i.scheme == "caip19" && i.value in seeds.crypto then
      Some(InstrumentAnswer(seeds.crypto[i.value], false, []))
    else if i in seeds.pusd.identifiers then Some(InstrumentAnswer(seeds.pusd, false, []))
    else if Referential(seeds, t, i).Some? then
      Some(InstrumentAnswer(Referential(seeds, t, i).value, false, []))
    else if i.scheme == "iso4217" && Upper(i.value) in seeds.cash then
      Some(InstrumentAnswer(seeds.cash[Upper(i.value)], false, []))
    else None
  }

  function BondOrPool(seeds: Seeds, i: Identifier): Option<Answer> {
    if i.scheme == "figi" && i.value in seeds.bonds then Some(InstrumentAnswer(seeds.bonds[i.value], true, []))
    else if i.scheme == "agency_pool" && (i.value, i.source) in seeds.pools then
      Some(InstrumentAnswer(seeds.pools[(i.value, i.source)], true, []))
    else None
  }

  /** The event venue an identifier of a matching request names, where the request is for a contract on it. */
  function ContractVenue(seeds: Seeds, asked: MatchAsk, i: Identifier): (r: Option<Venue>)
    ensures r.Some? ==> r.value in seeds.eventVenues
  {
    if i.scheme == "ticker" && asked.assetClass == "event_contract" && i.value != ""
    then EventVenue(seeds.eventVenues, i.source) else None
  }

  predicate Mints(t: Tables, i: Identifier) {
    i.scheme in {"figi", "share_class_figi"} && i.value in t.mints
  }

  /** One identifier's pass of `match_or_mint`: the tables after it, and its answer where it settles one. */
  function Outcome(seeds: Seeds, t: Tables, asked: MatchAsk, i: Identifier): (Tables, Option<Answer>) {
    var venue := ContractVenue(seeds, asked, i);
    var candidate := CandidateNamed(seeds.candidates, i.value);
    if venue.Some? then
      var key := (i.value, venue.value.venueId);
      var t' := WithContract(seeds, t, i.value, venue.value, asked.fields);
      (t', Some(InstrumentAnswer(t'.contracts[key], key !in t.contracts, [venue.value])))
    else if candidate.Some? then
      var t' := WithCandidate(seeds, t, candidate.value);
      var held := t'.candidates[candidate.value.ticker];
      (t', Some(InstrumentAnswer(held, candidate.value.ticker !in t.candidates,
                                 [if held.listingVenueId != "" then seeds.xnas else seeds.usComposite])))
    else if Seeded(seeds, t, i).Some? then (t, Seeded(seeds, t, i))
    else if Mints(t, i) then
      var t' := WithMinted(t, i.value);
      (t', Some(InstrumentAnswer(t'.minted[i.value], true, [])))
    else (t, BondOrPool(seeds, i))
  }

  /** The first identifier that settles an answer. */
  function Matched(seeds: Seeds, t: Tables, asked: MatchAsk, identifiers: seq<Identifier>): (Tables, Answer) {
    if |identifiers| == 0 then (t, PendingReview)
    else
      var (t', answer) := Outcome(seeds, t, asked, identifiers[0]);
      if answer.Some? then (t', answer.value) else Matched(seeds, t, asked, identifiers[1..])
  }

  /** Whether an answer already kept is the request's. */
  predicate Retry(t: Tables, key: string) {
    key != "" && key in t.answers
  }

  function Kept(t: Tables, key: string, answer: Answer): Tables {
    if key != "" then t.(answers := t.answers[key := answer]) else t
  }

  function MatchStep(seeds: Seeds, t: Tables, asked: MatchAsk): (Tables, Answer) {
    if Retry(t, asked.requestKey) then (t, t.answers[asked.requestKey])
    else
      var (t', answer) := Matched(seeds, t, asked, asked.identifiers);
      (Kept(t', asked.requestKey, answer), answer)
  }

  // ---- companies ----

  function CompanyByLei(companies: seq<Company>, lei: string): Option<string> {
    if |companies| == 0 then None
    else if companies[0].lei == lei then Some(companies[0].cik)
    else CompanyByLei(companies[1..], lei)
  }

  function CompanyByCik(companies: seq<Company>, cik: string): (r: Option<Company>)
    ensures r.Some? ==> r.value in companies && r.value.cik == cik
    ensures r.None? ==> forall c :: c in companies ==> c.cik != cik
  {
    if |companies| == 0 then None
    else if companies[0].cik == cik then Some(companies[0])
    else CompanyByCik(companies[1..], cik)
  }

  /** The company of the source's list an identifier names, by its CIK or by its LEI. */
  function CompanyNamed(seeds: Seeds, i: Identifier): (r: Option<Company>)
    ensures r.Some? ==> r.value in seeds.companySource
  {
    var cik := if i.scheme == "cik" then Some(i.value)
               else if i.scheme == "lei" then CompanyByLei(seeds.companySource, i.value)
               else None;
    if cik.None? then None else CompanyByCik(seeds.companySource, cik.value)
  }

  function WithCompany(t: Tables, company: Company): Tables {
    if company.cik in t.companies then t else t.(companies := t.companies[company.cik := company])
  }

  function CompanyMatched(seeds: Seeds, t: Tables, identifiers: seq<Identifier>): (Tables, Answer) {
    if |identifiers| == 0 then (t, PendingReview)
    else
      var named := CompanyNamed(seeds, identifiers[0]);
      if named.Some? then
        var t' := WithCompany(t, named.value);
        (t', CompanyAnswer(t'.companies[named.value.cik], named.value.cik !in t.companies))
      else CompanyMatched(seeds, t, identifiers[1..])
  }

  function CompanyStep(seeds: Seeds, t: Tables, asked: CompanyAsk): (Tables, Answer) {
    if Retry(t, asked.requestKey) then (t, t.answers[asked.requestKey])
    else
      var (t', answer) := CompanyMatched(seeds, t, asked.identifiers);
      (Kept(t', asked.requestKey, answer), answer)
  }

  // ---- event groups ----

  function Sorted(members: seq<string>): seq<string> {
    Sorting.Sort(members, Sorting.StringLe)
  }

  function Flag(said: string): string {
    Or(said, "EVENT_GROUP_FLAG_NOT_STATED")
  }

  function GroupKey(asked: GroupAsk): (string, string) {
    (asked.venueId, asked.ref)
  }

  /** A grouping the platform does not put to its staff. */
  predicate Acceptable(seeds: Seeds, t: Tables, asked: GroupAsk) {
    && (exists v :: v in seeds.eventVenues && v.venueId == asked.venueId)
    && asked.ref != "" && |asked.members| > 0
    && forall m :: m in asked.members ==> Held(seeds, t, m)
  }

  /** Whether a grouping says other than the version held: other members, whatever their order, or a flag. */
  predicate Differs(held: Group, asked: GroupAsk) {
    || held.members != Sorted(asked.members)
    || held.mutuallyExclusive != Flag(asked.mutuallyExclusive)
    || held.exhaustive != Flag(asked.exhaustive)
  }

  predicate NewVersion(t: Tables, asked: GroupAsk) {
    GroupKey(asked) !in t.groups || Differs(t.groups[GroupKey(asked)], asked)
  }

  function GroupFor(t: Tables, asked: GroupAsk, now: int): Group {
    var key := GroupKey(asked);
    Group(if key in t.groups then t.groups[key].groupId else MintedId(EventGroup, |t.groups| + 1),
          asked.venueId, asked.ref, asked.title, Sorted(asked.members), Flag(asked.mutuallyExclusive),
          Flag(asked.exhaustive), asked.seriesId, if key in t.groups then t.groups[key].version + 1 else 1,
          Or(asked.validFrom, "0"), now)
  }

  function WithGroup(t: Tables, asked: GroupAsk, now: int): Tables {
    if NewVersion(t, asked) then t.(groups := t.groups[GroupKey(asked) := GroupFor(t, asked, now)]) else t
  }

  function GroupStep(seeds: Seeds, t: Tables, asked: GroupAsk, now: int): (Tables, Answer) {
    if Retry(t, asked.requestKey) then (t, t.answers[asked.requestKey])
    else if !Acceptable(seeds, t, asked) then (Kept(t, asked.requestKey, PendingReview), PendingReview)
    else
      var t' := WithGroup(t, asked, now);
      var answer := GroupAnswer(t'.groups[GroupKey(asked)], GroupKey(asked) !in t.groups);
      (Kept(t', asked.requestKey, answer), answer)
  }

  // ---- every route that changes a table ----

  function ResolveStep(t: Tables, scheme: string, value: string): (Tables, Answer) {
    if Mints(t, Identifier(scheme, value, "")) then
      var t' := WithMinted(t, value);
      (t', InstrumentAnswer(t'.minted[value], false, []))
    else (t, Acknowledged)
  }

  function Step(seeds: Seeds, t: Tables, request: Request): (Tables, Answer) {
    match request
    case AskGroup(asked, now) => GroupStep(seeds, t, asked, now)
    case AskMatch(asked) => MatchStep(seeds, t, asked)
    case AskCompany(asked) => CompanyStep(seeds, t, asked)
    case Resolve(scheme, value) => ResolveStep(t, scheme, value)
    case Confirm(figis) => (t.(mints := t.mints + figis), Acknowledged)
    case Licence(administrators) => (t.(administrators := administrators), Acknowledged)
  }

  /** The module's state and its functions, changing the tables in place. */
  class Platform {
    const seeds: Seeds
    var answers: map<string, Answer>
    var minted: map<string, Record>
    var contracts: map<(string, string), Record>
    var groups: map<(string, string), Group>
    var companies: map<string, Company>
    var candidates: map<string, Record>
    var mints: set<string>
    var administrators: set<string>

    constructor (seeds: Seeds, mints: set<string>, administrators: set<string>)
      ensures this.seeds == seeds && Now() == Empty(mints, administrators)
    {
      this.seeds := seeds;
      answers, minted, contracts, groups, companies, candidates := map[], map[], map[], map[], map[], map[];
      this.mints, this.administrators := mints, administrators;
    }

    function Now(): Tables
      reads this
    {
      Tables(answers, minted, contracts, groups, companies, candidates, mints, administrators)
    }

    method MintedRecord(figi: string) returns (record: Record)
      modifies this
      ensures Now() == WithMinted(old(Now()), figi) && record == minted[figi]
    {
      if figi !in minted {
        var n := |minted| + 1;
        minted := minted[figi := Record(
          MintedId(Figi, n), [Identifier("share_class_figi", figi, "")], "USD",
          "Minted from the platform's source for " + figi, "", None)];
      }
      record := minted[figi];
    }

    method EventContractOf(value: string, venue: Venue, asked: MatchAsk) returns (record: Record)
      modifies this
      ensures Now() == WithContract(seeds, old(Now()), value, venue, asked.fields)
      ensures record == contracts[(value, venue.venueId)]
    {
      var key := (value, venue.venueId);
      if key !in contracts {
        var n := |contracts| + 1;
        var offered, said := Offered(asked.fields, "currency"), Offered(asked.fields, "description");
        var payout := Payout("1", "USD", "");
        if offered != "" {
          payout := Payout("1", offered, "");
        } else if venue.venueId in seeds.payouts {
          payout := seeds.payouts[venue.venueId];
        }
        var mic := ByScheme(venue.identifiers, "iso10383");
        contracts := contracts[key := Record(
          MintedId(EventContract, n), [Identifier("ticker", value, if mic != "" then mic else venue.venueId)],
          if offered != "" then offered else "USD",
          if said != "" then said else venue.name + " event contract " + value, venue.venueId, Some(payout))];
      }
      record := contracts[key];
    }

    method CandidateMinted(i: Identifier) returns (minted: Option<(bool, Record)>)
      modifies this
      ensures var named := CandidateNamed(seeds.candidates, i.value);
              if named.None? then minted == None && Now() == old(Now())
              else
                && Now() == WithCandidate(seeds, old(Now()), named.value)
                && minted == Some((named.value.ticker !in old(candidates), candidates[named.value.ticker]))
    {
      for n := 0 to |seeds.candidates|
        invariant Now() == old(Now())
        invariant CandidateNamed(seeds.candidates, i.value) == CandidateNamed(seeds.candidates[n..], i.value)
      {
        var seed := seeds.candidates[n];
        assert seeds.candidates[n..][1..] == seeds.candidates[n + 1..];
        if i.value == seed.composite || i.value == seed.shareClass {
          var unheld := seed.ticker !in candidates;
          if unheld {
            var m := |candidates| + 1;
            candidates := candidates[seed.ticker := Record(
              MintedId(Candidate, m), CandidateIdentifiers(seeds, seed), "USD", seed.name,
              if seed.mic == "XNAS" then seeds.xnas.venueId else "", None)];
          }
          return Some((unheld, candidates[seed.ticker]));
        }
      }
      return None;
    }

    /** One identifier's pass of `match_or_mint`. */
    method TryIdentifier(asked: MatchAsk, i: Identifier) returns (answer: Option<Answer>)
      modifies this
      ensures (Now(), answer) == Outcome(seeds, old(Now()), asked, i)
    {
      hide MintedRecordFor, ContractFor, CandidateFor, CandidateNamed, EventVenue, Upper;
      var venue := if i.scheme == "ticker" then EventVenue(seeds.eventVenues, i.source) else None;
      if venue.Some? && asked.assetClass == "event_contract" && i.value != "" {
        var unheld := (i.value, venue.value.venueId) !in contracts;
        var record := EventContractOf(i.value, venue.value, asked);
        return Some(InstrumentAnswer(record, unheld, [venue.value]));
      }
      var candidate := CandidateMinted(i);
      if candidate.Some? {
        var (unheld, held) := candidate.value;
        var venue := if held.listingVenueId != "" then seeds.xnas else seeds.usComposite;
        return Some(InstrumentAnswer(held, unheld, [venue]));
      }
      if i.scheme in {"figi", "share_class_figi", "composite_figi"} && i.value in seeds.equities {
        return Some(InstrumentAnswer(seeds.equities[i.value], false, [seeds.xnas]));
      }
      if i.scheme == "caip19" && i.value in seeds.crypto {
        return Some(InstrumentAnswer(seeds.crypto[i.value], false, []));
      }
      if i in seeds.pusd.identifiers {
        return Some(InstrumentAnswer(seeds.pusd, false, []));
      }
      var held := None;
      if i.scheme == "symbol" && i.source in administrators {
        if (i.value, i.source) in seeds.referentialBySymbol {
          held := Some(seeds.referentialBySymbol[(i.value, i.source)]);
        }
      } else if i.scheme == "isin" && i.value in seeds.referentialByIsin {
        held := Some(seeds.referentialByIsin[i.value]);
      }
      if held.Some? {
        return Some(InstrumentAnswer(held.value, false, []));
      }
      if i.scheme == "iso4217" && Upper(i.value) in seeds.cash {
        return Some(InstrumentAnswer(seeds.cash[Upper(i.value)], false, []));
      }
      if i.scheme in {"figi", "share_class_figi"} && i.value in mints {
        var record := MintedRecord(i.value);
        return Some(InstrumentAnswer(record, true, []));
      }
      if i.scheme == "figi" && i.value in seeds.bonds {
        return Some(InstrumentAnswer(seeds.bonds[i.value], true, []));
      }
      if i.scheme == "agency_pool" && (i.value, i.source) in seeds.pools {
        return Some(InstrumentAnswer(seeds.pools[(i.value, i.source)], true, []));
      }
      return None;
    }

    /** `match_or_mint` */
    method MatchOrMint(asked: MatchAsk) returns (answer: Answer)
      modifies this
      ensures (Now(), answer) == MatchStep(seeds, old(Now()), asked)
    {
      hide Outcome;
      if asked.requestKey != "" && asked.requestKey in answers {
        return answers[asked.requestKey];
      }
      answer := PendingReview;
      var n, settled := 0, false;
      ghost var was := Now();
      assert asked.identifiers[0..] == asked.identifiers;
      while n < |asked.identifiers| && !settled
        invariant n <= |asked.identifiers|
        invariant !settled ==> Now() == was && answer == PendingReview
        invariant Matched(seeds, was, asked, asked.identifiers)
               == if settled then (Now(), answer) else Matched(seeds, was, asked, asked.identifiers[n..])
      {
        assert asked.identifiers[n..][1..] == asked.identifiers[n + 1..];
        OutcomeUnsettled(seeds, was, asked, asked.identifiers[n]);
        var tried := TryIdentifier(asked, asked.identifiers[n]);
        if tried.Some? {
          answer, settled := tried.value, true;
        }
        n := n + 1;
      }
      if asked.requestKey != "" {
        answers := answers[asked.requestKey := answer];
      }
    }

    /** `company` */
    method CompanyOf(asked: CompanyAsk) returns (answer: Answer)
      modifies this
      ensures (Now(), answer) == CompanyStep(seeds, old(Now()), asked)
    {
      hide CompanyNamed;
      if asked.requestKey != "" && asked.requestKey in answers {
        return answers[asked.requestKey];
      }
      answer := PendingReview;
      var n, settled := 0, false;
      ghost var was := Now();
      assert asked.identifiers[0..] == asked.identifiers;
      while n < |asked.identifiers| && !settled
        invariant n <= |asked.identifiers|
        invariant !settled ==> Now() == was && answer == PendingReview
        invariant CompanyMatched(seeds, was, asked.identifiers)
               == if settled then (Now(), answer) else CompanyMatched(seeds, was, asked.identifiers[n..])
      {
        assert asked.identifiers[n..][1..] == asked.identifiers[n + 1..];
        var named := CompanyNamed(seeds, asked.identifiers[n]);
        if named.Some? {
          var unheld := named.value.cik !in companies;
          if unheld {
            companies := companies[named.value.cik := named.value];
          }
          answer, settled := CompanyAnswer(companies[named.value.cik], unheld), true;
        }
        n := n + 1;
      }
      if asked.requestKey != "" {
        answers := answers[asked.requestKey := answer];
      }
    }

    /** `event_group` */
    method EventGroupOf(asked: GroupAsk, now: int) returns (answer: Answer)
      modifies this
      ensures (Now(), answer) == GroupStep(seeds, old(Now()), asked, now)
    {
      hide Acceptable, Differs, Sorted, Flag, Numbering.MintedId, Or;
      if asked.requestKey != "" && asked.requestKey in answers {
        return answers[asked.requestKey];
      }
      if !Acceptable(seeds, Now(), asked) {
        answer := PendingReview;
      } else {
        var key := GroupKey(asked);
        var unheld := key !in groups;
        if unheld || Differs(groups[key], asked) {
          var version := if unheld then 1 else groups[key].version + 1;
          var id := if unheld then MintedId(EventGroup, |groups| + 1) else groups[key].groupId;
          groups := groups[key := Group(id, asked.venueId, asked.ref, asked.title, Sorted(asked.members),
                                        Flag(asked.mutuallyExclusive), Flag(asked.exhaustive), asked.seriesId,
                                        version, Or(asked.validFrom, "0"), now)];
        }
        answer := GroupAnswer(groups[key], unheld);
      }
      if asked.requestKey != "" {
        answers := answers[asked.requestKey := answer];
      }
    }
  }

  function Empty(mints: set<string>, administrators: set<string>): Tables {
    Tables(map[], map[], map[], map[], map[], map[], mints, administrators)
  }

  /** An identifier that settles nothing changes nothing. */
  lemma OutcomeUnsettled(seeds: Seeds, t: Tables, asked: MatchAsk, i: Identifier)
    ensures Outcome(seeds, t, asked, i).1.None? ==> Outcome(seeds, t, asked, i).0 == t
  {
  }
}
