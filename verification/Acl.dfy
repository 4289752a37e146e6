/**
 * The access list of src/auth.rs: a vector kept in priority order by a stable sort after every push, and a check that
 * takes the first rule that matches. The library's stable sort is the function StableSort.
 */
module Acl {
  import opened Bytes
  import Cidr

  datatype Action = Allow | Deny
  datatype AclRule = AclRule(ipRange: string, action: Action, priority: u32)

  // ---------------------------------------------------------------- sorting

  /** Highest priority first. */
  predicate Sorted(s: seq<AclRule>) {
    forall i, j :: 0 <= i < j < |s| ==> s[i].priority >= s[j].priority
  }

  /** Behind every rule of the same or a higher priority. */
  function Insert(s: seq<AclRule>, r: AclRule): seq<AclRule> {
    if s == [] || s[0].priority < r.priority then [r] + s else [s[0]] + Insert(s[1..], r)
  }

  function StableSort(s: seq<AclRule>): seq<AclRule> {
    if s == [] then [] else Insert(StableSort(s[..|s| - 1]), s[|s| - 1])
  }

  function Filter(s: seq<AclRule>, keep: AclRule -> bool): seq<AclRule> {
    if s == [] then [] else if keep(s[0]) then [s[0]] + Filter(s[1..], keep) else Filter(s[1..], keep)
  }

  lemma {:induction false} InsertKeeps(s: seq<AclRule>, r: AclRule)
    ensures multiset(Insert(s, r)) == multiset(s) + multiset{r}
  {
    if s != [] && s[0].priority >= r.priority {
      InsertKeeps(s[1..], r);
      assert s == [s[0]] + s[1..];
    }
  }

  lemma {:induction false} InsertSorted(s: seq<AclRule>, r: AclRule)
    requires Sorted(s)
    ensures Sorted(Insert(s, r))
  {
    if s != [] && s[0].priority >= r.priority {
      InsertSorted(s[1..], r);
      InsertKeeps(s[1..], r);
      var t := Insert(s[1..], r);
      forall j | 0 <= j < |t| ensures s[0].priority >= t[j].priority {
        assert t[j] in multiset(t);
        assert t[j] in s[1..] || t[j] == r;
      }
    }
  }

  lemma {:induction false} FilterAppend(s: seq<AclRule>, r: AclRule, keep: AclRule -> bool)
    ensures Filter(s + [r], keep) == Filter(s, keep) + if keep(r) then [r] else []
  {
    if s == [] {
      assert s + [r] == [r];
    } else {
      FilterAppend(s[1..], r, keep);
      assert (s + [r])[1..] == s[1..] + [r];
    }
  }

  lemma {:induction false} FilterLower(s: seq<AclRule>, keep: AclRule -> bool, priority: u32)
    requires forall r <- s :: r.priority < priority
    ensures Filter(s, keep) != [] ==> Filter(s, keep)[0].priority < priority
  {
    if s != [] { FilterLower(s[1..], keep, priority); }
  }

  lemma {:induction false} FilterInsert(s: seq<AclRule>, r: AclRule, keep: AclRule -> bool)
    requires Sorted(s)
    ensures Filter(Insert(s, r), keep) == if keep(r) then Insert(Filter(s, keep), r) else Filter(s, keep)
  {
    if s == [] {
    } else if s[0].priority < r.priority {
      FilterLower(s, keep, r.priority);
      assert ([r] + s)[1..] == s;
    } else {
      FilterInsert(s[1..], r, keep);
      assert ([s[0]] + Insert(s[1..], r))[1..] == Insert(s[1..], r);
      if keep(s[0]) {
        assert ([s[0]] + Filter(s[1..], keep))[1..] == Filter(s[1..], keep);
      }
    }
  }

  /** Removing rules before or after sorting is the same. */
  lemma {:induction false} SortFilter(s: seq<AclRule>, keep: AclRule -> bool)
    ensures Sorted(StableSort(s))
    ensures StableSort(Filter(s, keep)) == Filter(StableSort(s), keep)
  {
    if s != [] {
      var init, last := s[..|s| - 1], s[|s| - 1];
      assert s == init + [last];
      SortFilter(init, keep);
      InsertSorted(StableSort(init), last);
      FilterInsert(StableSort(init), last, keep);
      FilterAppend(init, last, keep);
      var f := Filter(init, keep);
      if keep(last) {
        assert (f + [last])[..|f|] == f;
      } else {
        assert f + [] == f;
      }
    }
  }

  function AtPriority(priority: u32): AclRule -> bool {
    (r: AclRule) => r.priority == priority
  }

  lemma {:induction false} SortOfEqual(s: seq<AclRule>, priority: u32)
    requires forall r <- s :: r.priority == priority
    ensures StableSort(s) == s
  {
    if s != [] {
      var init := s[..|s| - 1];
      SortOfEqual(init, priority);
      InsertLast(init, s[|s| - 1]);
    }
  }

  lemma {:induction false} InsertLast(s: seq<AclRule>, r: AclRule)
    requires forall q <- s :: q.priority >= r.priority
    ensures Insert(s, r) == s + [r]
  {
    if s != [] {
      InsertLast(s[1..], r);
      assert s + [r] == [s[0]] + (s[1..] + [r]);
    }
  }

  lemma {:induction false} FilterOnly(s: seq<AclRule>, keep: AclRule -> bool)
    ensures forall r <- Filter(s, keep) :: keep(r)
  {
    if s != [] { FilterOnly(s[1..], keep); }
  }

  /** What a stable sort is: a permutation, in order, that leaves the rules of each priority in their order. */
  lemma {:induction false} SortIsStable(s: seq<AclRule>, priority: u32)
    ensures Sorted(StableSort(s)) && multiset(StableSort(s)) == multiset(s)
    ensures Filter(StableSort(s), AtPriority(priority)) == Filter(s, AtPriority(priority))
  {
    SortFilter(s, AtPriority(priority));
    FilterOnly(s, AtPriority(priority));
    SortOfEqual(Filter(s, AtPriority(priority)), priority);
    SortKeeps(s);
  }

  lemma {:induction false} SortKeeps(s: seq<AclRule>)
    ensures multiset(StableSort(s)) == multiset(s)
  {
    if s != [] {
      var init, last := s[..|s| - 1], s[|s| - 1];
      SortKeeps(init);
      InsertKeeps(StableSort(init), last);
      assert multiset(init + [last]) == multiset(init) + multiset{last};
      assert s == init + [last];
    }
  }

  /** A sorted list is left as it is. */
  lemma {:induction false} SortOfSorted(s: seq<AclRule>)
    requires Sorted(s)
    ensures StableSort(s) == s
  {
    if s != [] {
      var init, last := s[..|s| - 1], s[|s| - 1];
      SortOfSorted(init);
      InsertLast(init, last);
      assert init + [last] == s;
    }
  }

  // ---------------------------------------------------------------- the check

  function FirstMatch(s: seq<AclRule>, matches: AclRule -> bool): Option<AclRule> {
    if s == [] then None else if matches(s[0]) then Some(s[0]) else FirstMatch(s[1..], matches)
  }

  /** The rule at `i` matches, beats every rule before it and is not beaten by any rule after it. */
  predicate Best(log: seq<AclRule>, matches: AclRule -> bool, i: nat) {
    && i < |log| && matches(log[i])
    && (forall j :: 0 <= j < i && matches(log[j]) ==> log[j].priority < log[i].priority)
    && (forall j :: i < j < |log| && matches(log[j]) ==> log[j].priority <= log[i].priority)
  }

  lemma {:induction false} FirstIsHead(s: seq<AclRule>, matches: AclRule -> bool)
    ensures FirstMatch(s, matches) ==
            if Filter(s, matches) == [] then None else Some(Filter(s, matches)[0])
  {
    if s != [] { FirstIsHead(s[1..], matches); }
  }

  lemma BestOfLonger(log: seq<AclRule>, last: AclRule, matches: AclRule -> bool, i: nat)
    requires Best(log, matches, i)
    ensures Best(log + [last], matches, if matches(last) && log[i].priority < last.priority then |log| else i)
  {
  }

  /** The head of the sorted matches of a log, with its place in the log. */
  lemma {:induction false} HeadIsBest(log: seq<AclRule>, matches: AclRule -> bool) returns (i: nat)
    requires Filter(log, matches) != []
    ensures var sorted := StableSort(Filter(log, matches));
            sorted != [] && Best(log, matches, i) && sorted[0] == log[i]
  {
    var init, last := log[..|log| - 1], log[|log| - 1];
    assert log == init + [last];
    FilterAppend(init, last, matches);
    var f := Filter(init, matches);
    if f == [] {
      i := |init|;
      assert Filter(log, matches) == [last];
      NoneMatch(init, matches);
    } else {
      var k := HeadIsBest(init, matches);
      BestOfLonger(init, last, matches, k);
      if matches(last) {
        assert (f + [last])[..|f|] == f;
        i := if init[k].priority < last.priority then |init| else k;
      } else {
        assert f + [] == f;
        i := k;
      }
    }
  }

  lemma {:induction false} NoneMatch(s: seq<AclRule>, matches: AclRule -> bool)
    requires Filter(s, matches) == []
    ensures forall j :: 0 <= j < |s| ==> !matches(s[j])
  {
    if s != [] {
      NoneMatch(s[1..], matches);
      assert s == [s[0]] + s[1..];
    }
  }

  /**
   * On a list sorted from a log, the first match is the matching rule of the highest priority, the earliest added on
   * ties, and there is none exactly when nothing in the log matches.
   */
  lemma FirstOfSorted(log: seq<AclRule>, matches: AclRule -> bool) returns (i: nat)
    ensures match FirstMatch(StableSort(log), matches)
            case None => forall j :: 0 <= j < |log| ==> !matches(log[j])
            case Some(r) => Best(log, matches, i) && r == log[i]
  {
    i := 0;
    FirstIsHead(StableSort(log), matches);
    SortFilter(log, matches);
    SortKeeps(Filter(log, matches));
    if Filter(log, matches) == [] {
      NoneMatch(log, matches);
    } else {
      i := HeadIsBest(log, matches);
    }
  }

  // ---------------------------------------------------------------- the list as it is kept

  function Kept(ipRange: string, priority: u32): AclRule -> bool {
    (r: AclRule) => !(r.ipRange == ipRange && r.priority == priority)
  }

  function Covers(ip: string): AclRule -> bool {
    (r: AclRule) => Cidr.InRange(ip, r.ipRange)
  }

  /** The rule at `i` is the first that covers the address. */
  predicate FirstFor(rules: seq<AclRule>, ip: string, i: nat)
    requires i < |rules|
  {
    Cidr.InRange(ip, rules[i].ipRange) && forall j :: 0 <= j < i ==> !Cidr.InRange(ip, rules[j].ipRange)
  }

  predicate Allows(rule: Option<AclRule>) {
    rule.None? || rule.value.action == Allow
  }

  lemma {:induction false} FilterCounts(s: seq<AclRule>, ipRange: string, priority: u32)
    ensures forall r :: multiset(Filter(s, Kept(ipRange, priority)))[r] ==
              if r.ipRange == ipRange && r.priority == priority then 0 else multiset(s)[r]
  {
    if s != [] {
      FilterCounts(s[1..], ipRange, priority);
      assert s == [s[0]] + s[1..];
    }
  }

  class AuthManager {
    var aclRules: seq<AclRule>

    constructor ()
      ensures aclRules == []
    {
      aclRules := [];
    }

    /** The part of `load_from_config` that concerns the list: it is taken over as it is. */
    method LoadFromConfig(rules: seq<AclRule>)
      modifies this
      ensures aclRules == rules
    {
      aclRules := rules;
    }

    method AddAclRule(rule: AclRule)
      modifies this
      ensures aclRules == StableSort(old(aclRules) + [rule])
    {
      aclRules := aclRules + [rule];
      aclRules := StableSort(aclRules);
    }

    method RemoveAclRule(ipRange: string, priority: u32)
      modifies this
      ensures aclRules == Filter(old(aclRules), Kept(ipRange, priority))
      ensures forall r :: multiset(aclRules)[r] ==
                if r.ipRange == ipRange && r.priority == priority then 0 else multiset(old(aclRules))[r]
    {
      FilterCounts(aclRules, ipRange, priority);
      var kept := [];
      for i := 0 to |aclRules|
        invariant aclRules == old(aclRules) && kept == Filter(aclRules[..i], Kept(ipRange, priority))
      {
        var r := aclRules[i];
        assert aclRules[..i + 1] == aclRules[..i] + [r];
        FilterAppend(aclRules[..i], r, Kept(ipRange, priority));
        if !(r.ipRange == ipRange && r.priority == priority) {
          kept := kept + [r];
        }
      }
      assert aclRules[..|aclRules|] == aclRules;
      aclRules := kept;
    }

    method CheckAcl(ip: string) returns (allowed: bool)
      ensures allowed == Allows(FirstMatch(aclRules, Covers(ip)))
      ensures !allowed <==> exists i :: 0 <= i < |aclRules| && aclRules[i].action == Deny && FirstFor(aclRules, ip, i)
    {
      for i := 0 to |aclRules|
        invariant forall j :: 0 <= j < i ==> !Cidr.InRange(ip, aclRules[j].ipRange)
        invariant FirstMatch(aclRules, Covers(ip)) == FirstMatch(aclRules[i..], Covers(ip))
      {
        if Cidr.InRange(ip, aclRules[i].ipRange) {
          assert FirstFor(aclRules, ip, i);
          return aclRules[i].action == Allow;
        }
      }
      allowed := true;
    }
  }

  // ---------------------------------------------------------------- histories

  datatype Op = Load(rules: seq<AclRule>) | Add(rule: AclRule) | Remove(ipRange: string, priority: u32)

  /** What the methods make of a sequence of calls. */
  function Rules(ops: seq<Op>): seq<AclRule> {
    if ops == [] then []
    else
      var before := Rules(ops[..|ops| - 1]);
      match ops[|ops| - 1]
      case Load(rules) => rules
      case Add(rule) => StableSort(before + [rule])
      case Remove(ipRange, priority) => Filter(before, Kept(ipRange, priority))
  }

  /** The rules that are present, in the order they were added. */
  function Log(ops: seq<Op>): seq<AclRule> {
    if ops == [] then []
    else
      var before := Log(ops[..|ops| - 1]);
      match ops[|ops| - 1]
      case Load(rules) => rules
      case Add(rule) => before + [rule]
      case Remove(ipRange, priority) => Filter(before, Kept(ipRange, priority))
  }

  predicate AddedSinceLoad(ops: seq<Op>) {
    ops != [] &&
    match ops[|ops| - 1]
    case Load(_) => false
    case Add(_) => true
    case Remove(_, _) => AddedSinceLoad(ops[..|ops| - 1])
  }

  /** The list is the sorted log once a rule was added, and the log as loaded before that. */
  lemma {:induction false} RulesFromLog(ops: seq<Op>)
    ensures Rules(ops) == if AddedSinceLoad(ops) then StableSort(Log(ops)) else Log(ops)
  {
    if ops != [] {
      var before, op := ops[..|ops| - 1], ops[|ops| - 1];
      RulesFromLog(before);
      if op.Add? {
        SortAgain(Log(before), op.rule);
      } else if op.Remove? {
        SortFilter(Log(before), Kept(op.ipRange, op.priority));
      }
    }
  }

  lemma SortAgain(s: seq<AclRule>, r: AclRule)
    ensures StableSort(StableSort(s) + [r]) == StableSort(s + [r])
  {
    var t := StableSort(s);
    SortFilter(s, Kept("", 0));
    SortOfSorted(t);
    assert (t + [r])[..|t|] == t && (s + [r])[..|s|] == s;
  }

  // ---------------------------------------------------------------- which rule decides

  predicate CoveredBefore(log: seq<AclRule>, ip: string, i: nat)
    requires i <= |log|
  {
    exists k :: 0 <= k < i && Covers(ip)(log[k])
  }

  /** The rule that decides about the address is the best one of the log that covers it. */
  predicate FollowsAt(rules: seq<AclRule>, log: seq<AclRule>, ip: string) {
    forall i :: 0 <= i < |log| && Best(log, Covers(ip), i) ==> FirstMatch(rules, Covers(ip)) == Some(log[i])
  }

  /** The rule at `i` stands before the one at `j`, which has the higher priority, and both cover the address. */
  predicate Overtakes(log: seq<AclRule>, ip: string, i: nat, j: nat) {
    i < j < |log| && log[i].priority < log[j].priority && Covers(ip)(log[i]) && Covers(ip)(log[j])
  }

  /** No rule overtakes one of higher priority for the address, unless an earlier rule covers the address already. */
  predicate InOrderAt(log: seq<AclRule>, ip: string) {
    forall i, j :: 0 <= i < j < |log| && Overtakes(log, ip, i, j) ==> CoveredBefore(log, ip, i)
  }

  lemma OneBest(log: seq<AclRule>, matches: AclRule -> bool, i: nat, j: nat)
    requires Best(log, matches, i) && Best(log, matches, j)
    ensures i == j
  {
  }

  lemma SortedFollows(log: seq<AclRule>, ip: string)
    ensures FollowsAt(StableSort(log), log, ip)
  {
    forall i | 0 <= i < |log| && Best(log, Covers(ip), i)
      ensures FirstMatch(StableSort(log), Covers(ip)) == Some(log[i])
    {
      var k := FirstOfSorted(log, Covers(ip));
      if FirstMatch(StableSort(log), Covers(ip)).Some? { OneBest(log, Covers(ip), i, k); }
    }
  }

  /** The place of the first match. */
  lemma {:induction false} FirstMatchAt(s: seq<AclRule>, matches: AclRule -> bool, b: nat) returns (f: nat)
    requires b < |s| && matches(s[b])
    ensures f <= b && FirstMatch(s, matches) == Some(s[f]) && matches(s[f])
    ensures forall j :: 0 <= j < f ==> !matches(s[j])
  {
    if matches(s[0]) {
      f := 0;
    } else {
      var k := FirstMatchAt(s[1..], matches, b - 1);
      f := k + 1;
      forall j | 0 <= j < f ensures !matches(s[j]) {
        if j > 0 { assert s[j] == s[1..][j - 1]; }
      }
    }
  }

  /** Where anything matches, something is best, and it is no worse than what matches. */
  lemma BestExists(log: seq<AclRule>, matches: AclRule -> bool, j: nat) returns (b: nat)
    requires j < |log| && matches(log[j])
    ensures Best(log, matches, b) && log[b].priority >= log[j].priority
  {
    if Filter(log, matches) == [] { NoneMatch(log, matches); }
    b := HeadIsBest(log, matches);
  }

  /** A list as loaded decides by its best rule about an address exactly when it is in order for that address. */
  lemma UnsortedFollows(log: seq<AclRule>, ip: string)
    ensures FollowsAt(log, log, ip) <==> InOrderAt(log, ip)
  {
    if InOrderAt(log, ip) {
      forall i | 0 <= i < |log| && Best(log, Covers(ip), i) ensures FirstMatch(log, Covers(ip)) == Some(log[i]) {
        var f := FirstMatchAt(log, Covers(ip), i);
        assert f < i ==> Overtakes(log, ip, f, i);
      }
    }
    if FollowsAt(log, log, ip) {
      forall i: nat, j: nat | Overtakes(log, ip, i, j) ensures CoveredBefore(log, ip, i) {
        var f := FirstMatchAt(log, Covers(ip), i);
        var b := BestExists(log, Covers(ip), j);
      }
    }
  }

  /**
   * After any sequence of loads, additions and removals, and for every address: the rule that decides is the covering
   * rule of the highest priority, the earliest added on ties, if and only if a rule was added since the last load or
   * the loaded list is in order for that address. Nothing in the list covers the address exactly when nothing in the
   * log does.
   */
  lemma CheckFollowsLog(ops: seq<Op>, ip: string)
    ensures FollowsAt(Rules(ops), Log(ops), ip) <==> AddedSinceLoad(ops) || InOrderAt(Log(ops), ip)
    ensures FirstMatch(Rules(ops), Covers(ip)).None? <==> FirstMatch(Log(ops), Covers(ip)).None?
  {
    RulesFromLog(ops);
    SortedFollows(Log(ops), ip);
    UnsortedFollows(Log(ops), ip);
    FirstIsHead(Rules(ops), Covers(ip));
    FirstIsHead(Log(ops), Covers(ip));
    SortFilter(Log(ops), Covers(ip));
    SortKeeps(Filter(Log(ops), Covers(ip)));
  }

  // ---------------------------------------------------------------- the answer itself

  /** `check_acl` answers as the best rule of the log says. */
  predicate AnswersAt(rules: seq<AclRule>, log: seq<AclRule>, ip: string) {
    forall i :: 0 <= i < |log| && Best(log, Covers(ip), i) ==>
      (Allows(FirstMatch(rules, Covers(ip))) <==> log[i].action == Allow)
  }

  /** Some rule that covers the address beats the one at `j`. */
  predicate Beaten(log: seq<AclRule>, ip: string, j: nat)
    requires j < |log|
  {
    exists k :: 0 <= k < |log| && Covers(ip)(log[k])
      && (log[k].priority > log[j].priority || (log[k].priority == log[j].priority && k < j))
  }

  /** As InOrderAt, but only rules of different actions matter, and only when nothing beats the later one. */
  predicate AnswersInOrderAt(log: seq<AclRule>, ip: string) {
    forall i, j :: 0 <= i < j < |log| && Overtakes(log, ip, i, j) && log[i].action != log[j].action ==>
      CoveredBefore(log, ip, i) || Beaten(log, ip, j)
  }

  lemma BestIsUnbeaten(log: seq<AclRule>, ip: string, j: nat)
    requires j < |log| && Covers(ip)(log[j])
    ensures Best(log, Covers(ip), j) <==> !Beaten(log, ip, j)
  {
  }

  lemma InOrderAnswers(log: seq<AclRule>, ip: string)
    requires AnswersInOrderAt(log, ip)
    ensures AnswersAt(log, log, ip)
  {
    forall i | 0 <= i < |log| && Best(log, Covers(ip), i)
      ensures Allows(FirstMatch(log, Covers(ip))) <==> log[i].action == Allow
    {
      var f := FirstMatchAt(log, Covers(ip), i);
      BestIsUnbeaten(log, ip, i);
      assert f < i ==> Overtakes(log, ip, f, i);
    }
  }

  lemma UnsortedAnswers(log: seq<AclRule>, ip: string)
    ensures AnswersAt(log, log, ip) <==> AnswersInOrderAt(log, ip)
  {
    if AnswersInOrderAt(log, ip) {
      InOrderAnswers(log, ip);
    }
    if AnswersAt(log, log, ip) {
      forall i: nat, j: nat | Overtakes(log, ip, i, j) && log[i].action != log[j].action
        ensures CoveredBefore(log, ip, i) || Beaten(log, ip, j)
      {
        var f := FirstMatchAt(log, Covers(ip), i);
        BestIsUnbeaten(log, ip, j);
      }
    }
  }

  /** The same for the answer: after any history and for every address, an exact condition on the log. */
  lemma CheckAnswersLog(ops: seq<Op>, ip: string)
    ensures AnswersAt(Rules(ops), Log(ops), ip) <==> AddedSinceLoad(ops) || AnswersInOrderAt(Log(ops), ip)
  {
    RulesFromLog(ops);
    SortedFollows(Log(ops), ip);
    UnsortedAnswers(Log(ops), ip);
  }
}
