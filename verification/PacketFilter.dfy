/** Packets cut on a node and let through again (`e2e/failover/run.py`): rules put at the head of a filter
    chain and taken out of it, and what the chain then does with a packet. */
module PacketFilter {
  import opened Wrappers

  type Address = string

  datatype Packet = Packet(source: Address, destination: Address)

  datatype Verdict = Dropped | Accepted

  /** A rule of a chain: one that drops packets by their source, destination or both, or any other, known by
      what it decides. */
  datatype Rule = Drops(source: Option<Address>, destination: Option<Address>) | Other(id: nat)

  type Others = (nat, Packet) -> Option<Verdict>

  predicate Matches(wanted: Option<Address>, a: Address) {
    wanted.None? || wanted.value == a
  }

  /** What a rule decides of a packet, if anything. */
  function Decides(rule: Rule, p: Packet, others: Others): Option<Verdict> {
    match rule
    case Drops(s, d) => if Matches(s, p.source) && Matches(d, p.destination) then Some(Dropped) else None
    case Other(id) => others(id, p)
  }

  /** The verdict of the first rule that decides, or the chain's policy. */
  function VerdictOf(chain: seq<Rule>, p: Packet, others: Others, policy: Verdict): Verdict {
    if |chain| == 0 then policy
    else
      match Decides(chain[0], p, others)
      case Some(v) => v
      case None => VerdictOf(chain[1..], p, others, policy)
  }

  // ---- rules put in and taken out ----

  /** `iptables -I <chain> 1 <rule>`, for each rule in turn. */
  function Inserted(chain: seq<Rule>, rules: seq<Rule>): seq<Rule> {
    if |rules| == 0 then chain else [rules[|rules| - 1]] + Inserted(chain, rules[..|rules| - 1])
  }

  /** `iptables -D <chain> <rule>`: the first rule like it gone, or none. */
  function Without(chain: seq<Rule>, rule: Rule): seq<Rule> {
    if |chain| == 0 then []
    else if chain[0] == rule then chain[1..]
    else [chain[0]] + Without(chain[1..], rule)
  }

  function Deleted(chain: seq<Rule>, rules: seq<Rule>): seq<Rule> {
    if |rules| == 0 then chain else Without(Deleted(chain, rules[..|rules| - 1]), rules[|rules| - 1])
  }

  /** `cut_rules`' list: for each target, both ways. */
  function CutRules(ip: Address, targets: seq<Address>): seq<Rule> {
    if |targets| == 0 then []
    else
      var last := targets[|targets| - 1];
      CutRules(ip, targets[..|targets| - 1]) + [Drops(Some(ip), Some(last)), Drops(Some(last), Some(ip))]
  }

  /** The rules put in where `held` hold and the next does not. */
  function FirstOf(rules: seq<Rule>, held: nat): seq<Rule> {
    if held <= |rules| then rules[..held] else rules
  }

  /** Those never put in. */
  function RestOf(rules: seq<Rule>, held: nat): seq<Rule> {
    if held <= |rules| then rules[held..] else []
  }

  /** Of `held` that hold, those past the first `n`. */
  function Past(held: nat, n: nat): nat {
    if held <= n then 0 else held - n
  }

  /** A node's three chains. */
  datatype Chains = Chains(forward: seq<Rule>, input: seq<Rule>, output: seq<Rule>)

  /** What `isolate` leaves of them putting its rules in, and taking them out. */
  function Isolated(c: Chains, ip: Address, held: nat): Chains {
    Chains(Inserted(c.forward, FirstOf([From(ip), To(ip)], held)),
           Inserted(c.input, FirstOf([From(ip)], Past(held, 2))),
           Inserted(c.output, FirstOf([To(ip)], Past(held, 3))))
  }

  function Rejoined(c: Chains, ip: Address): Chains {
    Chains(Deleted(c.forward, [From(ip), To(ip)]), Deleted(c.input, [From(ip)]), Deleted(c.output, [To(ip)]))
  }

  /** A node's three chains, changed in place. */
  class Node {
    var forward: seq<Rule>
    var input: seq<Rule>
    var output: seq<Rule>

    constructor (forward: seq<Rule>, input: seq<Rule>, output: seq<Rule>)
      ensures this.forward == forward && this.input == input && this.output == output
    {
      this.forward, this.input, this.output := forward, input, output;
    }

    function Now(): Chains
      reads this
    {
      Chains(forward, input, output)
    }

    /** `cut_rules(..., "-I")`: the rules put in one after another, as far as the `held` that hold; one that
        does not stops the rest. */
    method Cut(ip: Address, targets: seq<Address>, held: nat) returns (done: bool)
      modifies this`forward
      ensures forward == Inserted(old(forward), FirstOf(CutRules(ip, targets), held))
      ensures done <==> |CutRules(ip, targets)| <= held
    {
      var rules := CutRules(ip, targets);
      var n := 0;
      while n < |rules| && n < held
        invariant n <= |rules| && n <= held
        invariant forward == Inserted(old(forward), rules[..n])
      {
        assert rules[..n + 1][..n] == rules[..n];
        forward := [rules[n]] + forward;
        n := n + 1;
      }
      assert rules[..|rules|] == rules;
      done := n == |rules|;
    }

    /** `cut_rules(..., "-D")`: every rule taken out, whether or not it is there. */
    method Lift(ip: Address, targets: seq<Address>)
      modifies this`forward
      ensures forward == Deleted(old(forward), CutRules(ip, targets))
    {
      var rules := CutRules(ip, targets);
      for n := 0 to |rules|
        invariant forward == Deleted(old(forward), rules[..n])
      {
        assert rules[..n + 1][..n] == rules[..n];
        forward := Without(forward, rules[n]);
      }
      assert rules[..|rules|] == rules;
    }

    /** `isolate(..., "-I")`: four rules in turn, as far as the `held` that hold; one that does not stops the
        rest. */
    method Isolate(ip: Address, held: nat) returns (done: bool)
      modifies this
      ensures Now() == Isolated(old(Now()), ip, held)
      ensures done <==> held >= 4
    {
      InsertedInTurn(forward, From(ip), To(ip));
      InsertedInTurn(input, From(ip), To(ip));
      InsertedInTurn(output, To(ip), From(ip));
      if held < 1 {
        return false;
      }
      forward := [From(ip)] + forward;
      if held < 2 {
        return false;
      }
      forward := [To(ip)] + forward;
      if held < 3 {
        return false;
      }
      input := [From(ip)] + input;
      if held < 4 {
        return false;
      }
      output := [To(ip)] + output;
      return true;
    }

    /** `isolate(..., "-D")` */
    method Rejoin(ip: Address)
      modifies this
      ensures Now() == Rejoined(old(Now()), ip)
    {
      DeletedInTurn(forward, From(ip), To(ip));
      DeletedInTurn(input, From(ip), To(ip));
      DeletedInTurn(output, To(ip), From(ip));
      forward := Without(forward, From(ip));
      forward := Without(forward, To(ip));
      input := Without(input, From(ip));
      output := Without(output, To(ip));
    }
  }

  function From(ip: Address): Rule {
    Drops(Some(ip), None)
  }

  function To(ip: Address): Rule {
    Drops(None, Some(ip))
  }

  lemma InsertedInTurn(chain: seq<Rule>, a: Rule, b: Rule)
    ensures forall held :: FirstOf([a], held) == if held == 0 then [] else [a]
    ensures forall held :: FirstOf([a, b], held) == if held == 0 then [] else if held == 1 then [a] else [a, b]
    ensures Inserted(chain, []) == chain && Inserted(chain, [a]) == [a] + chain
    ensures Inserted(chain, [a, b]) == [b] + ([a] + chain)
  {
    assert [a][..0] == [] && [a, b][..1] == [a];
  }

  lemma DeletedInTurn(chain: seq<Rule>, a: Rule, b: Rule)
    ensures Deleted(chain, [a]) == Without(chain, a)
    ensures Deleted(chain, [a, b]) == Without(Without(chain, a), b)
  {
    assert [a][..0] == [] && [a, b][..1] == [a];
  }

  // ---- lifting a cut restores the chain ----

  lemma OneMore(rules: seq<Rule>, rule: Rule)
    ensures multiset([rule] + rules) == multiset(rules + [rule]) == multiset(rules) + multiset{rule}
  {
  }

  lemma {:induction false} InsertedAsHead(chain: seq<Rule>, rules: seq<Rule>) returns (head: seq<Rule>)
    ensures Inserted(chain, rules) == head + chain && multiset(head) == multiset(rules)
  {
    if |rules| == 0 {
      head := [];
    } else {
      var before, last := rules[..|rules| - 1], rules[|rules| - 1];
      var rest := InsertedAsHead(chain, before);
      head := [last] + rest;
      assert rules == before + [last];
      OneMore(before, last);
      OneMore(rest, last);
      assert head + chain == [last] + (rest + chain);
    }
  }

  /** A rule found in the head of a chain is taken out of the head. */
  lemma {:induction false} WithoutHead(head: seq<Rule>, chain: seq<Rule>, rule: Rule)
    requires rule in head
    ensures Without(head + chain, rule) == Without(head, rule) + chain
    ensures multiset(Without(head, rule)) == multiset(head) - multiset{rule}
  {
    assert head == [head[0]] + head[1..];
    assert (head + chain)[1..] == head[1..] + chain;
    if head[0] != rule {
      WithoutHead(head[1..], chain, rule);
    }
  }

  /** Taking out as many rules as were put in, in any order, leaves what they were put before. */
  lemma {:induction false} DeletedHead(head: seq<Rule>, chain: seq<Rule>, rules: seq<Rule>) returns (left: seq<Rule>)
    requires multiset(rules) <= multiset(head)
    ensures Deleted(head + chain, rules) == left + chain
    ensures multiset(left) == multiset(head) - multiset(rules)
  {
    if |rules| == 0 {
      left := head;
    } else {
      var last := rules[|rules| - 1];
      assert rules == rules[..|rules| - 1] + [last];
      left := DeletedHead(head, chain, rules[..|rules| - 1]);
      assert last in multiset(left);
      WithoutHead(left, chain, last);
      left := Without(left, last);
    }
  }

  lemma {:induction false} DeletedConcat(chain: seq<Rule>, a: seq<Rule>, b: seq<Rule>)
    ensures Deleted(chain, a + b) == Deleted(Deleted(chain, a), b)
  {
    if |b| == 0 {
      assert a + b == a;
    } else {
      assert (a + b)[..|a + b| - 1] == a + b[..|b| - 1];
      DeletedConcat(chain, a, b[..|b| - 1]);
    }
  }

  lemma {:induction false} WithoutShrinks(chain: seq<Rule>, rule: Rule)
    ensures rule in chain ==> |Without(chain, rule)| == |chain| - 1
    ensures rule !in chain ==> Without(chain, rule) == chain
  {
    if |chain| > 0 && chain[0] != rule {
      WithoutShrinks(chain[1..], rule);
    }
  }

  lemma {:induction false} DeletedNothingExactly(chain: seq<Rule>, rules: seq<Rule>)
    ensures |Deleted(chain, rules)| <= |chain|
    ensures (forall r :: r in rules ==> r !in chain) ==> Deleted(chain, rules) == chain
    ensures !(forall r :: r in rules ==> r !in chain) ==> |Deleted(chain, rules)| < |chain|
  {
    if |rules| > 0 {
      var last, before := rules[|rules| - 1], rules[..|rules| - 1];
      DeletedNothingExactly(chain, before);
      WithoutShrinks(Deleted(chain, before), last);
      assert forall r :: r in rules <==> r in before || r == last;
    }
  }

  /** A cut of which the first `held` rules held, lifted, leaves the chain as it was, whatever it was and
      however rules repeat, exactly when no rule that was never put in is like one the chain had. */
  lemma LiftRestoresExactly(chain: seq<Rule>, rules: seq<Rule>, held: nat)
    requires held <= |rules|
    ensures Deleted(Inserted(chain, rules[..held]), rules) == chain <==> forall r :: r in rules[held..] ==> r !in chain
  {
    var head := InsertedAsHead(chain, rules[..held]);
    var left := DeletedHead(head, chain, rules[..held]);
    assert |multiset(left)| == |left| == 0;
    assert left + chain == chain;
    assert rules == rules[..held] + rules[held..];
    DeletedConcat(Inserted(chain, rules[..held]), rules[..held], rules[held..]);
    DeletedNothingExactly(chain, rules[held..]);
  }

  /** So a cut all of whose rules held is lifted without a trace. */
  lemma CutThenLift(chain: seq<Rule>, ip: Address, targets: seq<Address>)
    ensures Deleted(Inserted(chain, CutRules(ip, targets)), CutRules(ip, targets)) == chain
  {
    var rules := CutRules(ip, targets);
    assert rules[..|rules|] == rules;
    LiftRestoresExactly(chain, rules, |rules|);
  }

  lemma RestoresExactly(chain: seq<Rule>, rules: seq<Rule>, held: nat)
    ensures Deleted(Inserted(chain, FirstOf(rules, held)), rules) == chain <==>
            forall r :: r in RestOf(rules, held) ==> r !in chain
  {
    LiftRestoresExactly(chain, rules, if held <= |rules| then held else |rules|);
    assert rules[..|rules|] == rules;
  }

  /** And an isolation: each of the three chains is as it was exactly when no rule it was never given is like
      one it had; so all three are where all four rules held. */
  lemma IsolateThenRejoin(node: Chains, ip: Address, held: nat)
    ensures var after := Isolated(node, ip, held);
            Rejoined(after, ip) == node <==>
            && (forall r :: r in RestOf([From(ip), To(ip)], held) ==> r !in node.forward)
            && (forall r :: r in RestOf([From(ip)], Past(held, 2)) ==> r !in node.input)
            && (forall r :: r in RestOf([To(ip)], Past(held, 3)) ==> r !in node.output)
    ensures held >= 4 ==> Rejoined(Isolated(node, ip, held), ip) == node
  {
    RestoresExactly(node.forward, [From(ip), To(ip)], held);
    RestoresExactly(node.input, [From(ip)], Past(held, 2));
    RestoresExactly(node.output, [To(ip)], Past(held, 3));
  }

  /** A rule of the chain's own, lost to a cut that never got it in. */
  lemma PartialCutLosesRule()
    ensures var chain, rules := [Drops(Some("a"), Some("b"))], CutRules("a", ["b"]);
            Deleted(Inserted(chain, rules[..0]), rules) == []
  {
    var chain, there, back := [Drops(Some("a"), Some("b"))], Drops(Some("a"), Some("b")), Drops(Some("b"), Some("a"));
    assert ["b"][..0] == [] && CutRules("a", []) == [];
    assert CutRules("a", ["b"]) == [there, back];
    DeletedInTurn(chain, there, back);
  }

  // ---- what is dropped meanwhile ----

  predicate AllDrop(rules: seq<Rule>) {
    forall r :: r in rules ==> r.Drops?
  }

  predicate Hits(rules: seq<Rule>, p: Packet) {
    exists r :: r in rules && r.Drops? && Matches(r.source, p.source) && Matches(r.destination, p.destination)
  }

  /** Drops put at a chain's head drop exactly the packets they match; the rest get the chain's verdict. */
  lemma {:induction false} VerdictWhileInserted(chain: seq<Rule>, rules: seq<Rule>, p: Packet, others: Others,
                                                policy: Verdict)
    requires AllDrop(rules)
    ensures VerdictOf(Inserted(chain, rules), p, others, policy)
         == if Hits(rules, p) then Dropped else VerdictOf(chain, p, others, policy)
  {
    if |rules| > 0 {
      var last, before := rules[|rules| - 1], rules[..|rules| - 1];
      assert forall r :: r in rules <==> r in before || r == last;
      VerdictWhileInserted(chain, before, p, others, policy);
      assert Inserted(chain, rules)[1..] == Inserted(chain, before);
    }
  }

  /** A packet between the pod and a target, either way. */
  predicate Between(ip: Address, targets: seq<Address>, p: Packet) {
    (p.source == ip && p.destination in targets) || (p.source in targets && p.destination == ip)
  }

  lemma {:induction false} CutRulesHit(ip: Address, targets: seq<Address>, p: Packet)
    ensures AllDrop(CutRules(ip, targets))
    ensures Hits(CutRules(ip, targets), p) <==> Between(ip, targets, p)
  {
    if |targets| > 0 {
      var last, before := targets[|targets| - 1], targets[..|targets| - 1];
      CutRulesHit(ip, before, p);
      var rules := CutRules(ip, targets);
      var there, back := Drops(Some(ip), Some(last)), Drops(Some(last), Some(ip));
      assert forall r :: r in rules <==> r in CutRules(ip, before) || r == there || r == back;
      assert forall t :: t in targets <==> t in before || t == last;
    }
  }

  /** While a pod is cut from its targets, exactly the packets between them are dropped besides, and every
      other packet gets the verdict it had. */
  lemma WhileCut(chain: seq<Rule>, ip: Address, targets: seq<Address>, p: Packet, others: Others, policy: Verdict)
    ensures var between := || (p.source == ip && exists t :: t in targets && p.destination == t)
                           || (p.destination == ip && exists t :: t in targets && p.source == t);
            VerdictOf(Inserted(chain, CutRules(ip, targets)), p, others, policy) ==
            if between then Dropped else VerdictOf(chain, p, others, policy)
  {
    CutRulesHit(ip, targets, p);
    VerdictWhileInserted(chain, CutRules(ip, targets), p, others, policy);
  }

  /** While a pod is isolated: every forwarded packet to or from it, every packet from it to the node and
      every packet of the node's to it is dropped, and nothing else besides. */
  lemma WhileIsolated(node: Chains, ip: Address, held: nat, p: Packet, others: Others, policy: Verdict)
    requires held >= 4
    ensures var after := Isolated(node, ip, held);
            && (VerdictOf(after.forward, p, others, policy) ==
                if p.source == ip || p.destination == ip then Dropped
                else VerdictOf(node.forward, p, others, policy))
            && (VerdictOf(after.input, p, others, policy)
                == if p.source == ip then Dropped else VerdictOf(node.input, p, others, policy))
            && (VerdictOf(after.output, p, others, policy)
                == if p.destination == ip then Dropped else VerdictOf(node.output, p, others, policy))
  {
    InsertedInTurn(node.forward, From(ip), To(ip));
    InsertedInTurn(node.input, From(ip), To(ip));
    InsertedInTurn(node.output, To(ip), From(ip));
    hide VerdictOf, Inserted, FirstOf;
    VerdictWhileInserted(node.forward, [From(ip), To(ip)], p, others, policy);
    VerdictWhileInserted(node.input, [From(ip)], p, others, policy);
    VerdictWhileInserted(node.output, [To(ip)], p, others, policy);
    assert From(ip) in [From(ip), To(ip)] && To(ip) in [From(ip), To(ip)];
    assert From(ip) in [From(ip)] && To(ip) in [To(ip)];
  }

  /** A chain's verdict outright: that of its first rule to decide, or its policy where none does. */
  lemma {:induction false} FirstDecides(chain: seq<Rule>, p: Packet, others: Others, policy: Verdict, k: nat)
    ensures k < |chain| && Decides(chain[k], p, others).Some?
            && (forall j :: 0 <= j < k ==> Decides(chain[j], p, others).None?) ==>
              VerdictOf(chain, p, others, policy) == Decides(chain[k], p, others).value
    ensures (forall j :: 0 <= j < |chain| ==> Decides(chain[j], p, others).None?) ==>
              VerdictOf(chain, p, others, policy) == policy
  {
    hide Decides;
    if |chain| > 0 {
      var rest := chain[1..];
      assert forall j :: 0 <= j < |rest| ==> rest[j] == chain[j + 1];
      FirstDecides(rest, p, others, policy, if k > 0 then k - 1 else 0);
    }
  }
}
