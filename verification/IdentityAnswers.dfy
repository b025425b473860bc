/** What the identity routes answer: which identifier settles a matching request, what is answered when it is
    asked again, and what "minted" tells. */
module IdentityAnswers {
  import opened Identity
  import opened IdentityRuns
  import opened Wrappers

  // ---- which identifier settles a matching request ----

  /** A matching request is answered by the first of its identifiers that settles an answer. */
  lemma {:induction false} MatchedByFirst(seeds: Seeds, t: Tables, asked: MatchAsk, identifiers: seq<Identifier>,
                                          k: nat)
    requires k < |identifiers| && Outcome(seeds, t, asked, identifiers[k]).1.Some?
    requires forall j :: 0 <= j < k ==> Outcome(seeds, t, asked, identifiers[j]).1.None?
    ensures var (t', answer) := Outcome(seeds, t, asked, identifiers[k]);
            Matched(seeds, t, asked, identifiers) == (t', answer.value)
  {
    hide Outcome;
    if k > 0 {
      MatchedByFirst(seeds, t, asked, identifiers[1..], k - 1);
    }
  }

  /** It is queued for the platform's staff exactly when none does, and then no table changes. */
  lemma {:induction false} QueuedExactly(seeds: Seeds, t: Tables, asked: MatchAsk, identifiers: seq<Identifier>)
    ensures Matched(seeds, t, asked, identifiers).1 == PendingReview <==>
            forall i :: i in identifiers ==> Outcome(seeds, t, asked, i).1.None?
    ensures Matched(seeds, t, asked, identifiers).1 == PendingReview ==> Matched(seeds, t, asked, identifiers).0 == t
  {
    if |identifiers| > 0 {
      SettledIsNotQueued(seeds, t, asked, identifiers[0]);
      hide Outcome;
      QueuedExactly(seeds, t, asked, identifiers[1..]);
      assert forall i :: i in identifiers <==> i == identifiers[0] || i in identifiers[1..];
    }
  }

  lemma SettledIsNotQueued(seeds: Seeds, t: Tables, asked: MatchAsk, i: Identifier)
    ensures Outcome(seeds, t, asked, i).1.Some? ==> Outcome(seeds, t, asked, i).1.value.InstrumentAnswer?
  {
  }

  // ---- what "minted" tells ----

  /** Whether an answer says that something was minted. */
  predicate TellsMinted(answer: Answer) {
    match answer
    case GroupAnswer(_, minted) => minted
    case InstrumentAnswer(_, minted, _) => minted
    case CompanyAnswer(_, minted) => minted
    case _ => false
  }

  ghost predicate NewKey<K(!new), V>(before: map<K, V>, after: map<K, V>) {
    exists k :: k in after && k !in before
  }

  /** Whether something is held that was not: an instrument, a company or a group. */
  ghost predicate Added(before: Tables, after: Tables) {
    || NewKey(before.minted, after.minted) || NewKey(before.contracts, after.contracts)
    || NewKey(before.candidates, after.candidates) || NewKey(before.companies, after.companies)
    || NewKey(before.groups, after.groups)
  }

  lemma NewKeySet<K(!new), V>(table: map<K, V>, key: K, value: V)
    ensures NewKey(table, table[key := value]) <==> key !in table
    ensures !NewKey(table, table)
  {
    assert key in table[key := value];
  }

  lemma NothingAdded(t: Tables)
    ensures !Added(t, t)
  {
  }

  /** An identifier answered as minted every time: it names no contract, candidate or seeded record, but a
      FIGI of the source's, a bond or a pool. */
  predicate MintedEveryTime(seeds: Seeds, t: Tables, asked: MatchAsk, i: Identifier) {
    && ContractVenue(seeds, asked, i).None? && CandidateNamed(seeds.candidates, i.value).None?
    && Seeded(seeds, t, i).None? && (Mints(t, i) || BondOrPool(seeds, i).Some?)
  }

  /** The first identifier that settles an answer. */
  function Settling(seeds: Seeds, t: Tables, asked: MatchAsk, identifiers: seq<Identifier>): (r: Option<Identifier>)
    ensures r.Some? ==> Outcome(seeds, t, asked, r.value).1.Some?
  {
    if |identifiers| == 0 then None
    else if Outcome(seeds, t, asked, identifiers[0]).1.Some? then Some(identifiers[0])
    else Settling(seeds, t, asked, identifiers[1..])
  }

  /** A request answered as minted though nothing is: a retry of one that was, or one settled by a FIGI of the
      source's whose record is minted already, by a bond or by a pool. */
  predicate RepeatsMinted(seeds: Seeds, t: Tables, request: Request) {
    if Retry(t, request.Key()) then TellsMinted(t.answers[request.Key()])
    else
      request.AskMatch? &&
      var asked := request.instrument;
      var i := Settling(seeds, t, asked, asked.identifiers);
      i.Some? && MintedEveryTime(seeds, t, asked, i.value) && !(Mints(t, i.value) && i.value.value !in t.minted)
  }

  lemma ContractTells(seeds: Seeds, t: Tables, value: string, venue: Venue, fields: seq<(string, string)>)
    ensures Added(t, WithContract(seeds, t, value, venue, fields)) <==> (value, venue.venueId) !in t.contracts
  {
    hide ContractFor, NewKey;
    NothingAdded(t);
    NewKeySet(t.contracts, (value, venue.venueId), ContractFor(seeds, value, venue, fields, |t.contracts| + 1));
    OthersSame(t);
  }

  lemma CandidateTells(seeds: Seeds, t: Tables, seed: CandidateSeed)
    ensures Added(t, WithCandidate(seeds, t, seed)) <==> seed.ticker !in t.candidates
  {
    hide CandidateFor, NewKey;
    NothingAdded(t);
    NewKeySet(t.candidates, seed.ticker, CandidateFor(seeds, seed, |t.candidates| + 1));
    OthersSame(t);
  }

  lemma FigiTells(t: Tables, figi: string)
    ensures Added(t, WithMinted(t, figi)) <==> figi !in t.minted
  {
    hide MintedRecordFor, NewKey;
    NothingAdded(t);
    NewKeySet(t.minted, figi, MintedRecordFor(figi, |t.minted| + 1));
    OthersSame(t);
  }

  lemma CompanyAdds(t: Tables, company: Company)
    ensures Added(t, WithCompany(t, company)) <==> company.cik !in t.companies
  {
    hide NewKey;
    NothingAdded(t);
    NewKeySet(t.companies, company.cik, company);
    OthersSame(t);
  }

  lemma GroupAdds(t: Tables, asked: GroupAsk, now: int)
    ensures Added(t, WithGroup(t, asked, now)) <==> GroupKey(asked) !in t.groups
  {
    hide GroupFor, NewKey, Differs;
    NothingAdded(t);
    NewKeySet(t.groups, GroupKey(asked), GroupFor(t, asked, now));
    OthersSame(t);
  }

  lemma OthersSame(t: Tables)
    ensures !NewKey(t.minted, t.minted) && !NewKey(t.contracts, t.contracts) && !NewKey(t.candidates, t.candidates)
    ensures !NewKey(t.companies, t.companies) && !NewKey(t.groups, t.groups)
  {
  }

  lemma PassTells(seeds: Seeds, t: Tables, asked: MatchAsk, i: Identifier)
    ensures var (t', answer) := Outcome(seeds, t, asked, i);
            && (answer.None? ==> t' == t)
            && (answer.Some? ==>
                  var again := MintedEveryTime(seeds, t, asked, i) && !(Mints(t, i) && i.value !in t.minted);
                  (TellsMinted(answer.value) <==> Added(t, t') || again) && (again ==> t' == t))
  {
    hide Seeded, ContractFor, CandidateFor, MintedRecordFor, ContractVenue, CandidateNamed, Added;
    NothingAdded(t);
    SeededNeverMints(seeds, t, i);
    if ContractVenue(seeds, asked, i).Some? {
      ContractTells(seeds, t, i.value, ContractVenue(seeds, asked, i).value, asked.fields);
    } else if CandidateNamed(seeds.candidates, i.value).Some? {
      CandidateTells(seeds, t, CandidateNamed(seeds.candidates, i.value).value);
    } else {
      FigiTells(t, i.value);
    }
  }

  lemma SeededNeverMints(seeds: Seeds, t: Tables, i: Identifier)
    ensures Seeded(seeds, t, i).Some? ==> !TellsMinted(Seeded(seeds, t, i).value)
  {
  }

  lemma {:induction false} MatchedTells(seeds: Seeds, t: Tables, asked: MatchAsk, identifiers: seq<Identifier>)
    ensures var (t', answer) := Matched(seeds, t, asked, identifiers);
            var i := Settling(seeds, t, asked, identifiers);
            var again := i.Some? && MintedEveryTime(seeds, t, asked, i.value)
                      && !(Mints(t, i.value) && i.value.value !in t.minted);
            (TellsMinted(answer) <==> Added(t, t') || again) && (again ==> t' == t)
  {
    hide Outcome, MintedEveryTime;
    if |identifiers| > 0 {
      PassTells(seeds, t, asked, identifiers[0]);
      if Outcome(seeds, t, asked, identifiers[0]).1.None? {
        MatchedTells(seeds, t, asked, identifiers[1..]);
      }
    }
  }

  lemma {:induction false} CompanyTells(seeds: Seeds, t: Tables, identifiers: seq<Identifier>)
    ensures var (t', answer) := CompanyMatched(seeds, t, identifiers);
            TellsMinted(answer) <==> Added(t, t')
  {
    hide CompanyNamed, Added, WithCompany;
    NothingAdded(t);
    if |identifiers| > 0 {
      if CompanyNamed(seeds, identifiers[0]).Some? {
        CompanyAdds(t, CompanyNamed(seeds, identifiers[0]).value);
        CompanyHeld(t, CompanyNamed(seeds, identifiers[0]).value);
      } else {
        CompanyTells(seeds, t, identifiers[1..]);
      }
    }
  }

  lemma CompanyHeld(t: Tables, company: Company)
    ensures company.cik in WithCompany(t, company).companies
  {
  }

  lemma GroupTells(seeds: Seeds, t: Tables, asked: GroupAsk, now: int)
    requires !Retry(t, asked.requestKey)
    ensures var (t', answer) := GroupStep(seeds, t, asked, now);
            TellsMinted(answer) <==> Added(t, t')
  {
    hide Acceptable, WithGroup, Added, Kept;
    NothingAdded(t);
    GroupAdds(t, asked, now);
    KeptAdds(t, t, asked.requestKey, PendingReview);
    GroupHeld(t, asked, now);
    var t' := WithGroup(t, asked, now);
    KeptAdds(t, t', asked.requestKey, GroupAnswer(t'.groups[GroupKey(asked)], GroupKey(asked) !in t.groups));
  }

  lemma GroupHeld(t: Tables, asked: GroupAsk, now: int)
    ensures GroupKey(asked) in WithGroup(t, asked, now).groups
  {
    hide GroupFor, Differs;
  }

  lemma KeptAdds(before: Tables, after: Tables, key: string, answer: Answer)
    ensures Added(before, Kept(after, key, answer)) <==> Added(before, after)
  {
    hide NewKey;
  }

  /** On each of the three routes, an answer says "minted" just when something new is held, exactly unless
      the request repeats what was minted. */
  lemma MintedMeansNewExactly(seeds: Seeds, t: Tables, request: Request)
    requires request.AskGroup? || request.AskMatch? || request.AskCompany?
    ensures var (t', answer) := Step(seeds, t, request);
            (TellsMinted(answer) <==> Added(t, t')) <==> !RepeatsMinted(seeds, t, request)
  {
    hide Matched, CompanyMatched, GroupStep, Added, TellsMinted, MintedEveryTime, Settling, Kept;
    NothingAdded(t);
    if Retry(t, request.Key()) {
      RetryAnswered(seeds, t, request);
    } else {
      match request
      case AskMatch(asked) =>
        MatchedTells(seeds, t, asked, asked.identifiers);
        var (t', answer) := Matched(seeds, t, asked, asked.identifiers);
        KeptAdds(t, t', asked.requestKey, answer);
      case AskCompany(asked) =>
        CompanyTells(seeds, t, asked.identifiers);
        var (t', answer) := CompanyMatched(seeds, t, asked.identifiers);
        KeptAdds(t, t', asked.requestKey, answer);
      case AskGroup(asked, now) => GroupTells(seeds, t, asked, now);
    }
  }

  lemma RetryAnswered(seeds: Seeds, t: Tables, request: Request)
    requires Retry(t, request.Key())
    ensures Step(seeds, t, request) == (t, t.answers[request.Key()])
  {
    var _ := StepChange(seeds, t, request);
  }

  /** Seeds of nothing. */
  function NoSeeds(): Seeds {
    var nowhere := Venue("", "", []);
    Seeds([], map[], map[], map[], Record("", [], "", "", "", None), [], map[], map[], map[], map[], map[], [], [],
          nowhere, nowhere)
  }

  function AskedForFigi(key: string): Request {
    AskMatch(MatchAsk(key, [Identifier("figi", "F", "")], "", []))
  }

  function Confirmed(): Tables {
    Empty({"F"}, {})
  }

  /** A FIGI the source confirms, asked for under one key, another and the first again: answered as minted
      each time, and minted once. */
  lemma MintedThreeTimes()
    ensures var (t1, first) := Step(NoSeeds(), Confirmed(), AskedForFigi("a"));
            TellsMinted(first) && Added(Confirmed(), t1)
    ensures var t1 := Step(NoSeeds(), Confirmed(), AskedForFigi("a")).0;
            var (t2, second) := Step(NoSeeds(), t1, AskedForFigi("b"));
            TellsMinted(second) && !Added(t1, t2)
    ensures var t1 := Step(NoSeeds(), Confirmed(), AskedForFigi("a")).0;
            var t2 := Step(NoSeeds(), t1, AskedForFigi("b")).0;
            var (t3, third) := Step(NoSeeds(), t2, AskedForFigi("a"));
            TellsMinted(third) && t3 == t2
  {
    hide Step, Added, WithMinted;
    FigiAsked(Confirmed(), "a");
    var t1 := Step(NoSeeds(), Confirmed(), AskedForFigi("a")).0;
    FigiAsked(t1, "b");
    AnsweredForEver(NoSeeds(), Confirmed(), AskedForFigi("a"), [AskedForFigi("b")], AskedForFigi("a"));
    assert [AskedForFigi("b")][..0] == [];
    assert Run(NoSeeds(), t1, [AskedForFigi("b")]) == Step(NoSeeds(), t1, AskedForFigi("b")).0;
  }

  lemma FigiAsked(t: Tables, key: string)
    requires "F" in t.mints && key != "" && key !in t.answers
    ensures var (t', answer) := Step(NoSeeds(), t, AskedForFigi(key));
            && TellsMinted(answer) && (Added(t, t') <==> "F" !in t.minted)
            && "F" in t'.minted && t'.mints == t.mints && t'.answers == t.answers[key := answer]
  {
    hide MintedRecordFor, Added;
    FigiTells(t, "F");
    var t' := WithMinted(t, "F");
    KeptAdds(t, t', key, InstrumentAnswer(t'.minted["F"], true, []));
  }

  // ---- asked again ----

  /** The settings a matching request is read by. */
  predicate SameSettings(a: Tables, b: Tables) {
    a.mints == b.mints && a.administrators == b.administrators
  }

  /** What is answered again: the same, but whether it is minted. */
  function Retold(answer: Answer, minted: bool): Answer {
    match answer
    case InstrumentAnswer(record, _, venues) => InstrumentAnswer(record, minted, venues)
    case CompanyAnswer(company, _) => CompanyAnswer(company, minted)
    case _ => answer
  }

  /** What a table holds, once grown on, it holds. */
  lemma HeldOn(seeds: Seeds, t: Tables, later: Tables)
    requires Grows(t, later)
    ensures forall k :: k in t.contracts ==> k in later.contracts && later.contracts[k] == t.contracts[k]
    ensures forall k :: k in t.candidates ==> k in later.candidates && later.candidates[k] == t.candidates[k]
    ensures forall k :: k in t.minted ==> k in later.minted && later.minted[k] == t.minted[k]
    ensures forall k :: k in t.companies ==> k in later.companies && later.companies[k] == t.companies[k]
  {
  }

  /** An identifier's later pass changes no table and answers the same record, as minted only where that is
      said every time. */
  ghost predicate SaidAgain(seeds: Seeds, t: Tables, later: Tables, asked: MatchAsk, again: MatchAsk, i: Identifier) {
    var answer := Outcome(seeds, t, asked, i).1;
    && Outcome(seeds, later, again, i).0 == later
    && Outcome(seeds, later, again, i).1
    == if answer.None? then None else Some(Retold(answer.value, MintedEveryTime(seeds, t, asked, i)))
  }

  /** Over tables that hold all the first pass added. */
  lemma PassAgain(seeds: Seeds, t: Tables, later: Tables, asked: MatchAsk, again: MatchAsk, i: Identifier)
    requires SameSettings(t, later) && again.assetClass == asked.assetClass
    requires Outcome(seeds, t, asked, i).1.Some? ==> Grows(Outcome(seeds, t, asked, i).0, later)
    ensures SaidAgain(seeds, t, later, asked, again, i)
  {
    hide Outcome, ContractVenue, CandidateNamed, Grows, SaidAgain;
    SameVenue(seeds, asked, again, i);
    TablesSettle(seeds, t, asked, i);
    if ContractVenue(seeds, asked, i).Some? {
      ContractAgain(seeds, t, later, asked, again, i);
    } else if CandidateNamed(seeds.candidates, i.value).Some? {
      CandidateAgain(seeds, t, later, asked, again, i);
    } else {
      SeededBySettings(seeds, t, later, i);
      RestAgain(seeds, t, later, asked, again, i);
    }
  }

  lemma TablesSettle(seeds: Seeds, t: Tables, asked: MatchAsk, i: Identifier)
    ensures ContractVenue(seeds, asked, i).Some? || CandidateNamed(seeds.candidates, i.value).Some? ==>
              Outcome(seeds, t, asked, i).1.Some?
  {
    hide ContractFor, CandidateFor, ContractVenue, CandidateNamed, Seeded, BondOrPool, Mints;
  }

  lemma ContractAgain(seeds: Seeds, t: Tables, later: Tables, asked: MatchAsk, again: MatchAsk, i: Identifier)
    requires ContractVenue(seeds, asked, i).Some? && ContractVenue(seeds, again, i) == ContractVenue(seeds, asked, i)
    requires Grows(Outcome(seeds, t, asked, i).0, later)
    ensures SaidAgain(seeds, t, later, asked, again, i)
  {
    hide ContractFor, ContractVenue, CandidateNamed, Seeded, BondOrPool, Mints, Grows;
    HeldOn(seeds, Outcome(seeds, t, asked, i).0, later);
  }

  lemma CandidateAgain(seeds: Seeds, t: Tables, later: Tables, asked: MatchAsk, again: MatchAsk, i: Identifier)
    requires ContractVenue(seeds, asked, i).None? && ContractVenue(seeds, again, i).None?
    requires CandidateNamed(seeds.candidates, i.value).Some?
    requires Grows(Outcome(seeds, t, asked, i).0, later)
    ensures SaidAgain(seeds, t, later, asked, again, i)
  {
    hide CandidateFor, ContractVenue, CandidateNamed, Seeded, BondOrPool, Mints, Grows;
    HeldOn(seeds, Outcome(seeds, t, asked, i).0, later);
  }

  lemma RestAgain(seeds: Seeds, t: Tables, later: Tables, asked: MatchAsk, again: MatchAsk, i: Identifier)
    requires SameSettings(t, later) && Seeded(seeds, later, i) == Seeded(seeds, t, i)
    requires ContractVenue(seeds, asked, i).None? && ContractVenue(seeds, again, i).None?
    requires CandidateNamed(seeds.candidates, i.value).None?
    requires Outcome(seeds, t, asked, i).1.Some? ==> Grows(Outcome(seeds, t, asked, i).0, later)
    ensures SaidAgain(seeds, t, later, asked, again, i)
  {
    hide MintedRecordFor, ContractVenue, CandidateNamed, Seeded, BondOrPool, Grows;
    SeededNeverMints(seeds, t, i);
    SeededIsInstrument(seeds, t, i);
    if Outcome(seeds, t, asked, i).1.Some? {
      HeldOn(seeds, Outcome(seeds, t, asked, i).0, later);
    }
  }

  lemma SameVenue(seeds: Seeds, asked: MatchAsk, again: MatchAsk, i: Identifier)
    requires again.assetClass == asked.assetClass
    ensures ContractVenue(seeds, again, i) == ContractVenue(seeds, asked, i)
  {
  }

  lemma SeededIsInstrument(seeds: Seeds, t: Tables, i: Identifier)
    ensures Seeded(seeds, t, i).Some? ==> Seeded(seeds, t, i).value.InstrumentAnswer?
    ensures BondOrPool(seeds, i).Some? ==>
              BondOrPool(seeds, i).value.InstrumentAnswer? && TellsMinted(BondOrPool(seeds, i).value)
  {
  }

  lemma SeededBySettings(seeds: Seeds, t: Tables, later: Tables, i: Identifier)
    requires SameSettings(t, later)
    ensures Seeded(seeds, later, i) == Seeded(seeds, t, i)
  {
  }

  /** A matching request's identifiers tried again, where the tables hold all they added before. */
  lemma {:induction false} MatchedAgain(seeds: Seeds, t: Tables, later: Tables, asked: MatchAsk, again: MatchAsk,
                                        identifiers: seq<Identifier>)
    requires SameSettings(t, later) && again.assetClass == asked.assetClass
    requires Grows(Matched(seeds, t, asked, identifiers).0, later)
    ensures var i := Settling(seeds, t, asked, identifiers);
            var minted := i.Some? && MintedEveryTime(seeds, t, asked, i.value);
            var told := Retold(Matched(seeds, t, asked, identifiers).1, minted);
            Matched(seeds, later, again, identifiers) == (later, told)
  {
    hide Outcome, MintedEveryTime, Grows;
    if |identifiers| > 0 {
      PassAgain(seeds, t, later, asked, again, identifiers[0]);
      if Outcome(seeds, t, asked, identifiers[0]).1.None? {
        OutcomeUnsettled(seeds, t, asked, identifiers[0]);
        MatchedAgain(seeds, t, later, asked, again, identifiers[1..]);
      }
    }
  }

  lemma KeptGrowsOn(seeds: Seeds, t: Tables, key: string, answer: Answer, between: seq<Request>)
    requires !Retry(t, key)
    ensures Grows(t, Run(seeds, Kept(t, key, answer), between))
  {
    hide Grows, Run, Kept;
    KeptGrows(t, key, answer);
    RunGrows(seeds, Kept(t, key, answer), between);
    GrowsOn(t, Kept(t, key, answer), Run(seeds, Kept(t, key, answer), between));
  }

  lemma MatchedKeepsAnswers(seeds: Seeds, t: Tables, asked: MatchAsk, identifiers: seq<Identifier>)
    ensures Matched(seeds, t, asked, identifiers).0.answers == t.answers
  {
    hide Matched, Applied;
    var change := MatchedChange(seeds, t, asked, identifiers);
    AppliedKeepsAnswers(seeds, t, change);
  }

  /** A matching request made again under a key not answered yet, whatever came between but a change of the
      FIGIs confirmed or the administrators licensed: answered with the same record, minted only where a FIGI
      of the source's, a bond or a pool is said to be every time, and no table changed but the answers. */
  lemma AskedAgainMatches(seeds: Seeds, t: Tables, asked: MatchAsk, between: seq<Request>, again: MatchAsk)
    requires again.identifiers == asked.identifiers && again.assetClass == asked.assetClass
    requires !Retry(t, asked.requestKey)
    requires var t2 := Run(seeds, MatchStep(seeds, t, asked).0, between);
             SameSettings(t, t2) && !Retry(t2, again.requestKey)
    ensures var (t1, answer) := MatchStep(seeds, t, asked);
            var t2 := Run(seeds, t1, between);
            var i := Settling(seeds, t, asked, asked.identifiers);
            var told := Retold(answer, i.Some? && MintedEveryTime(seeds, t, asked, i.value));
            MatchStep(seeds, t2, again) == (Kept(t2, again.requestKey, told), told)
  {
    hide Matched, Run, Kept, Grows, MintedEveryTime, Settling, Retold;
    var (t', answer) := Matched(seeds, t, asked, asked.identifiers);
    MatchedKeepsAnswers(seeds, t, asked, asked.identifiers);
    KeptGrowsOn(seeds, t', asked.requestKey, answer, between);
    MatchedAgain(seeds, t, Run(seeds, MatchStep(seeds, t, asked).0, between), asked, again, asked.identifiers);
  }

  lemma {:induction false} CompanyMatchedAgain(seeds: Seeds, t: Tables, later: Tables, identifiers: seq<Identifier>)
    requires Grows(CompanyMatched(seeds, t, identifiers).0, later)
    ensures CompanyMatched(seeds, later, identifiers) == (later, Retold(CompanyMatched(seeds, t, identifiers).1, false))
  {
    hide CompanyNamed, Grows;
    if |identifiers| > 0 {
      if CompanyNamed(seeds, identifiers[0]).Some? {
        HeldOn(seeds, CompanyMatched(seeds, t, identifiers).0, later);
      } else {
        CompanyMatchedAgain(seeds, t, later, identifiers[1..]);
      }
    }
  }

  lemma CompanyKeepsAnswers(seeds: Seeds, t: Tables, identifiers: seq<Identifier>)
    ensures CompanyMatched(seeds, t, identifiers).0.answers == t.answers
  {
    hide CompanyMatched, Applied;
    var change := CompanyChange(seeds, t, identifiers);
    AppliedKeepsAnswers(seeds, t, change);
  }

  /** A company asked for again under a key not answered yet, whatever came between: answered the same, not
      minted, and no table changed but the answers. */
  lemma CompanyAskedAgainMatches(seeds: Seeds, t: Tables, asked: CompanyAsk, between: seq<Request>, again: CompanyAsk)
    requires again.identifiers == asked.identifiers && !Retry(t, asked.requestKey)
    requires !Retry(Run(seeds, CompanyStep(seeds, t, asked).0, between), again.requestKey)
    ensures var (t1, answer) := CompanyStep(seeds, t, asked);
            var t2 := Run(seeds, t1, between);
            CompanyStep(seeds, t2, again) == (Kept(t2, again.requestKey, Retold(answer, false)), Retold(answer, false))
  {
    hide CompanyMatched, Run, Kept, Grows, Retold;
    var (t', answer) := CompanyMatched(seeds, t, asked.identifiers);
    CompanyKeepsAnswers(seeds, t, asked.identifiers);
    KeptGrowsOn(seeds, t', asked.requestKey, answer, between);
    CompanyMatchedAgain(seeds, t, Run(seeds, CompanyStep(seeds, t, asked).0, between), asked.identifiers);
  }

  // ---- a company is minted on first asking ----

  /** The company the first identifier that names one names. */
  function CompanyOfFirst(seeds: Seeds, identifiers: seq<Identifier>): Option<Company> {
    if |identifiers| == 0 then None
    else if CompanyNamed(seeds, identifiers[0]).Some? then CompanyNamed(seeds, identifiers[0])
    else CompanyOfFirst(seeds, identifiers[1..])
  }

  lemma {:induction false} CompanyMatchedByFirst(seeds: Seeds, t: Tables, identifiers: seq<Identifier>)
    ensures var company := CompanyOfFirst(seeds, identifiers);
            CompanyMatched(seeds, t, identifiers) ==
            if company.None? then (t, PendingReview)
            else
              var t' := WithCompany(t, company.value);
              (t', CompanyAnswer(t'.companies[company.value.cik], company.value.cik !in t.companies))
  {
    hide CompanyNamed;
    if |identifiers| > 0 && CompanyNamed(seeds, identifiers[0]).None? {
      CompanyMatchedByFirst(seeds, t, identifiers[1..]);
    }
  }

  /** A request for the company of that CIK that is no retry. */
  predicate AsksCompany(seeds: Seeds, t: Tables, request: Request, cik: string) {
    && request.AskCompany? && !Retry(t, request.Key())
    && var company := CompanyOfFirst(seeds, request.company.identifiers);
       company.Some? && company.value.cik == cik
  }

  lemma OthersKeepCompanies(seeds: Seeds, t: Tables, request: Request)
    requires !request.AskCompany?
    ensures Step(seeds, t, request).0.companies == t.companies
  {
    hide Step, Applied, Allowed;
    var change := StepChange(seeds, t, request);
    AppliedKeepsCompanies(seeds, t, change);
  }

  lemma AppliedKeepsCompanies(seeds: Seeds, t: Tables, change: Change)
    ensures !change.NewCompany? ==> Applied(seeds, t, change).companies == t.companies
  {
    hide MintedRecordFor, ContractFor, CandidateFor, GroupFor, NewVersion;
  }

  lemma CompaniesAfter(seeds: Seeds, t: Tables, request: Request, cik: string)
    ensures cik in Step(seeds, t, request).0.companies <==> cik in t.companies || AsksCompany(seeds, t, request, cik)
  {
    hide Step, CompanyOfFirst, Retry;
    if request.AskCompany? {
      CompanyStepCompanies(seeds, t, request.company, cik);
    } else {
      OthersKeepCompanies(seeds, t, request);
    }
  }

  predicate NamesCik(company: Option<Company>, cik: string) {
    company.Some? && company.value.cik == cik
  }

  lemma CompanyStepCompanies(seeds: Seeds, t: Tables, asked: CompanyAsk, cik: string)
    ensures var after := Step(seeds, t, AskCompany(asked)).0.companies;
            var named := NamesCik(CompanyOfFirst(seeds, asked.identifiers), cik);
            cik in after <==> cik in t.companies || (!Retry(t, asked.requestKey) && named)
  {
    hide CompanyMatched, CompanyOfFirst, Kept, NamesCik;
    var (t', answer) := CompanyMatched(seeds, t, asked.identifiers);
    CompanyMatchedCompanies(seeds, t, asked.identifiers, cik);
    KeptCompanies(t', asked.requestKey, answer);
  }

  lemma CompanyMatchedCompanies(seeds: Seeds, t: Tables, identifiers: seq<Identifier>, cik: string)
    ensures cik in CompanyMatched(seeds, t, identifiers).0.companies <==>
            cik in t.companies || NamesCik(CompanyOfFirst(seeds, identifiers), cik)
  {
    hide CompanyMatched, CompanyOfFirst;
    CompanyMatchedByFirst(seeds, t, identifiers);
  }

  lemma KeptCompanies(t: Tables, key: string, answer: Answer)
    ensures Kept(t, key, answer).companies == t.companies
  {
  }

  ghost predicate CompanyAskedAt(seeds: Seeds, t: Tables, requests: seq<Request>, n: nat, cik: string)
    requires n < |requests|
  {
    AsksCompany(seeds, Run(seeds, t, requests[..n]), requests[n], cik)
  }

  ghost predicate CompanyAskedIn(seeds: Seeds, t: Tables, requests: seq<Request>, cik: string) {
    exists n: nat :: n < |requests| && CompanyAskedAt(seeds, t, requests, n, cik)
  }

  lemma CompanyAskedInLonger(seeds: Seeds, t: Tables, requests: seq<Request>, cik: string)
    requires |requests| > 0
    ensures CompanyAskedIn(seeds, t, requests, cik) <==>
            || CompanyAskedIn(seeds, t, requests[..|requests| - 1], cik)
            || CompanyAskedAt(seeds, t, requests, |requests| - 1, cik)
  {
    hide AsksCompany, Run;
    var before := requests[..|requests| - 1];
    forall n: nat | n < |before|
      ensures CompanyAskedAt(seeds, t, requests, n, cik) <==> CompanyAskedAt(seeds, t, before, n, cik)
    {
      assert before[..n] == requests[..n];
    }
  }

  lemma NoneAsked(seeds: Seeds, t: Tables, cik: string)
    ensures !CompanyAskedIn(seeds, t, [], cik)
  {
  }

  /** A company comes to be held exactly by a request for it. */
  lemma {:induction false} CompanyHeldExactlyWhenAsked(seeds: Seeds, t: Tables, requests: seq<Request>, cik: string)
    requires cik !in t.companies
    ensures cik in Run(seeds, t, requests).companies <==> CompanyAskedIn(seeds, t, requests, cik)
  {
    hide Step, AsksCompany, CompanyAskedIn;
    if |requests| == 0 {
      NoneAsked(seeds, t, cik);
    } else {
      var before, last := requests[..|requests| - 1], requests[|requests| - 1];
      CompanyHeldExactlyWhenAsked(seeds, t, before, cik);
      CompaniesAfter(seeds, Run(seeds, t, before), last, cik);
      CompanyAskedInLonger(seeds, t, requests, cik);
    }
  }

  /** From empty tables, a request for a company that is no retry is answered with the company held, and as
      minted exactly when it is the first for it. */
  lemma CompanyMintedExactlyFirst(seeds: Seeds, mints: set<string>, administrators: set<string>,
                                  before: seq<Request>, request: Request, cik: string)
    requires AsksCompany(seeds, Run(seeds, Empty(mints, administrators), before), request, cik)
    ensures var t := Empty(mints, administrators);
            var (t', answer) := Step(seeds, Run(seeds, t, before), request);
            cik in t'.companies && answer == CompanyAnswer(t'.companies[cik], !CompanyAskedIn(seeds, t, before, cik))
  {
    hide Run, CompanyMatched, CompanyOfFirst, CompanyAskedIn;
    CompanyHeldExactlyWhenAsked(seeds, Empty(mints, administrators), before, cik);
    CompanyMatchedByFirst(seeds, Run(seeds, Empty(mints, administrators), before), request.company.identifiers);
  }
}
