/** The fault rules of tests/protocol/fault_inject.c against a pure reading of the message history. */
module FaultInject {
  import opened Wire

  const MAX_RULES: nat := 8

  datatype Fault = NoFault | Disconnect | Unresponsive | CloseConnection

  datatype Trigger = Immediate | AfterNMessages | OnMessageType | AfterNOfType

  datatype Rule = Rule(fault: Fault, trigger: Trigger, messageType: byte, triggerCount: uint32, oneShot: bool,
                       currentCount: uint32)

  const UNUSED: Rule := Rule(NoFault, Immediate, 0, 0, false, 0)

  /** A rule and the number of messages checked before it was added. */
  datatype Entry = Entry(rule: Rule, since: nat)

  const NO_ENTRY: Entry := Entry(UNUSED, 0)

  // ---- The history's own account. `h` is the message types so far, oldest first; `m` is the next one. ----

  ghost function Front(h: seq<byte>): seq<byte>
    requires h != []
  {
    h[..|h| - 1]
  }

  ghost function Last(h: seq<byte>): byte
    requires h != []
  {
    h[|h| - 1]
  }

  /** The rule that answers message m: the first that fires, or the table's length. */
  ghost function FirstMatch(table: seq<Entry>, h: seq<byte>, m: byte): (w: nat)
    ensures w <= |table| && (w < |table| ==> Fires(table, h, m, w))
    ensures forall j :: 0 <= j < w ==> !Fires(table, h, m, j)
    decreases |h|, 4, 0
  {
    MatchFrom(table, h, m, 0)
  }

  ghost function MatchFrom(table: seq<Entry>, h: seq<byte>, m: byte, i: nat): (w: nat)
    requires i <= |table|
    ensures i <= w <= |table|
    ensures forall j :: i <= j < w ==> !Fires(table, h, m, j)
    ensures w < |table| ==> Fires(table, h, m, w)
    decreases |h|, 3, |table| - i
  {
    if i == |table| || Fires(table, h, m, i) then i else MatchFrom(table, h, m, i + 1)
  }

  ghost predicate Fires(table: seq<Entry>, h: seq<byte>, m: byte, i: nat)
    requires i < |table|
    decreases |h|, 2, 0
  {
    && Live(table, h, i)
    && match table[i].rule.trigger
       case Immediate => true
       case AfterNMessages => |h| + 1 >= table[i].rule.triggerCount
       case OnMessageType => m == table[i].rule.messageType
       case AfterNOfType => m == table[i].rule.messageType && Matches(table, h, i) + 1 >= table[i].rule.triggerCount
  }

  /** The slot holds a rule by then and, if it is one-shot, it has not fired. */
  ghost predicate Live(table: seq<Entry>, h: seq<byte>, i: nat)
    requires i < |table|
    decreases |h|, 1, 0
  {
    table[i].rule.fault != NoFault && table[i].since <= |h| && (table[i].rule.oneShot ==> !HasFired(table, h, i))
  }

  ghost predicate HasFired(table: seq<Entry>, h: seq<byte>, i: nat)
    decreases |h|, 0, 0
  {
    h != [] && (FirstMatch(table, Front(h), Last(h)) == i || HasFired(table, Front(h), i))
  }

  /** How many messages of its type got as far as rule i while it was live: none before it had answered. */
  ghost function Matches(table: seq<Entry>, h: seq<byte>, i: nat): (n: nat)
    requires i < |table|
    ensures n <= |h|
    decreases |h|, 0, 0
  {
    if h == [] then 0
    else Matches(table, Front(h), i) + if Counted(table, Front(h), Last(h), i) then 1 else 0
  }

  ghost predicate Counted(table: seq<Entry>, h: seq<byte>, m: byte, i: nat)
    requires i < |table|
    decreases |h|, 5, 0
  {
    && table[i].rule.trigger == AfterNOfType && m == table[i].rule.messageType
    && Live(table, h, i) && FirstMatch(table, h, m) >= i
  }

  lemma OneMore(table: seq<Entry>, h: seq<byte>, m: byte, i: nat)
    requires i < |table|
    ensures Matches(table, h + [m], i) == Matches(table, h, i) + if Counted(table, h, m, i) then 1 else 0
    ensures HasFired(table, h + [m], i) <==> FirstMatch(table, h, m) == i || HasFired(table, h, i)
  {
    assert Front(h + [m]) == h && Last(h + [m]) == m;
  }

  ghost function AnswerTo(table: seq<Entry>, h: seq<byte>, m: byte): Fault {
    var w := FirstMatch(table, h, m);
    if w < |table| then table[w].rule.fault else NoFault
  }

  /** The number of messages answered with a fault. */
  ghost function Faults(table: seq<Entry>, h: seq<byte>): nat {
    if h == [] then 0
    else Faults(table, Front(h)) + if AnswerTo(table, Front(h), Last(h)) != NoFault then 1 else 0
  }

  /** The number of messages that rule i answered. */
  ghost function Wins(table: seq<Entry>, h: seq<byte>, i: nat): nat {
    if h == [] then 0
    else Wins(table, Front(h), i) + if FirstMatch(table, Front(h), Last(h)) == i then 1 else 0
  }

  lemma {:induction false} FiredIsWon(table: seq<Entry>, h: seq<byte>, i: nat)
    ensures HasFired(table, h, i) <==> Wins(table, h, i) > 0
    decreases |h|
  {
    if h != [] {
      FiredIsWon(table, Front(h), i);
    }
  }

  /** A one-shot rule answers at most one message of any history. */
  lemma {:induction false} OneShotFiresOnce(table: seq<Entry>, h: seq<byte>, i: nat)
    requires i < |table| && table[i].rule.oneShot
    ensures Wins(table, h, i) <= 1
    decreases |h|
  {
    if h != [] {
      OneShotFiresOnce(table, Front(h), i);
      FiredIsWon(table, Front(h), i);
      if FirstMatch(table, Front(h), Last(h)) == i {
        assert Live(table, Front(h), i);
      }
    }
  }

  ghost function FiredSet(table: seq<Entry>, h: seq<byte>): set<nat> {
    set i: nat | i < |table| && HasFired(table, h, i)
  }

  predicate OneShotOrUnused(rule: Rule) {
    rule.fault == NoFault || rule.oneShot
  }

  /** With one-shot rules only, every fault has used up a rule of its own. */
  lemma {:induction false} FaultsUseUpRules(table: seq<Entry>, h: seq<byte>)
    requires forall i :: 0 <= i < |table| ==> OneShotOrUnused(table[i].rule)
    ensures Faults(table, h) == |FiredSet(table, h)|
    decreases |h|
  {
    if h == [] {
      assert FiredSet(table, h) == {};
    } else {
      FaultsUseUpRules(table, Front(h));
      var w := FirstMatch(table, Front(h), Last(h));
      if w < |table| {
        assert Live(table, Front(h), w);
        assert w !in FiredSet(table, Front(h));
        assert FiredSet(table, h) == FiredSet(table, Front(h)) + {w};
      } else {
        assert FiredSet(table, h) == FiredSet(table, Front(h));
      }
    }
  }

  lemma {:induction false} BoundedSet(s: set<nat>, n: nat)
    requires forall i :: i in s ==> i < n
    ensures |s| <= n
  {
    if n == 0 {
      assert s == {};
    } else {
      BoundedSet(s - {n - 1}, n - 1);
    }
  }

  ghost function UsedSlots(table: seq<Entry>): set<nat> {
    set i: nat | i < |table| && table[i].rule.fault != NoFault
  }

  lemma {:induction false} FiredIsUsed(table: seq<Entry>, h: seq<byte>, i: nat)
    requires i < |table| && HasFired(table, h, i)
    ensures table[i].rule.fault != NoFault
    decreases |h|
  {
    if FirstMatch(table, Front(h), Last(h)) == i {
      assert Live(table, Front(h), i);
    } else {
      FiredIsUsed(table, Front(h), i);
    }
  }

  lemma {:induction false} SmallerSet(a: set<nat>, b: set<nat>)
    requires a <= b
    ensures |a| <= |b|
  {
    if a != {} {
      var x :| x in a;
      SmallerSet(a - {x}, b - {x});
    }
  }

  /** A table of one-shot rules, full or not, injects at most as many faults as it has rules, so at most 8. */
  lemma OneShotTableIsBounded(table: seq<Entry>, h: seq<byte>)
    requires |table| == MAX_RULES && forall i :: 0 <= i < |table| ==> OneShotOrUnused(table[i].rule)
    ensures Faults(table, h) <= |UsedSlots(table)| <= 8
  {
    FaultsUseUpRules(table, h);
    BoundedSet(UsedSlots(table), |table|);
    forall i | i in FiredSet(table, h) ensures i in UsedSlots(table) {
      FiredIsUsed(table, h, i);
    }
    SmallerSet(FiredSet(table, h), UsedSlots(table));
  }

  // ---- One rule by itself, in terms of the messages alone ----

  /** How many messages of the history have the type. */
  ghost function OfType(h: seq<byte>, t: byte): nat {
    if h == [] then 0 else OfType(Front(h), t) + if Last(h) == t then 1 else 0
  }

  /** The message after h, the (|h| + 1)-st, reaches the rule's threshold. */
  ghost predicate Reached(rule: Rule, h: seq<byte>, m: byte) {
    match rule.trigger
    case Immediate => true
    case AfterNMessages => rule.triggerCount <= |h + [m]|
    case OnMessageType => m == rule.messageType
    case AfterNOfType => m == rule.messageType && rule.triggerCount <= OfType(h + [m], m)
  }

  ghost predicate EverReached(rule: Rule, h: seq<byte>) {
    h != [] && (Reached(rule, Front(h), Last(h)) || EverReached(rule, Front(h)))
  }

  /** Slot i holds the table's one rule, from the start. */
  ghost predicate OnlyRule(table: seq<Entry>, i: nat) {
    && i < |table| && table[i].rule.fault != NoFault && table[i].since == 0
    && forall j :: 0 <= j < |table| && j != i ==> table[j].rule.fault == NoFault
  }

  lemma {:induction false} OnlyRuleCounts(table: seq<Entry>, i: nat, h: seq<byte>)
    requires OnlyRule(table, i)
    ensures HasFired(table, h, i) <==> EverReached(table[i].rule, h)
    ensures table[i].rule.trigger == AfterNOfType && !(table[i].rule.oneShot && HasFired(table, h, i)) ==>
              Matches(table, h, i) == OfType(h, table[i].rule.messageType)
    decreases |h|
  {
    if h != [] {
      var g, m := Front(h), Last(h);
      OnlyRuleCounts(table, i, g);
      OnlyRuleFires(table, i, g, m);
      OneMore(table, g, m, i);
      assert h == g + [m];
      if EverReached(table[i].rule, g) && !Reached(table[i].rule, g, m) {
        assert HasFired(table, h, i);
      }
      if table[i].rule.oneShot && EverReached(table[i].rule, g) {
        assert HasFired(table, h, i);
      }
    }
  }

  lemma OnlyRuleFires(table: seq<Entry>, i: nat, h: seq<byte>, m: byte)
    requires OnlyRule(table, i)
    requires table[i].rule.trigger == AfterNOfType && !(table[i].rule.oneShot && HasFired(table, h, i)) ==>
               Matches(table, h, i) == OfType(h, table[i].rule.messageType)
    ensures FirstMatch(table, h, m) == i
            <==> Reached(table[i].rule, h, m) && !(table[i].rule.oneShot && HasFired(table, h, i))
    ensures FirstMatch(table, h, m) == i || FirstMatch(table, h, m) == |table|
  {
    assert Front(h + [m]) == h && Last(h + [m]) == m;
    assert Live(table, h, i) <==> !(table[i].rule.oneShot && HasFired(table, h, i));
    assert Fires(table, h, m, i) <==> Reached(table[i].rule, h, m) && Live(table, h, i);
    var w := FirstMatch(table, h, m);
    assert w < |table| ==> Live(table, h, w);
  }

  /** One rule answers each message that reaches its threshold; a one-shot rule only the first of them. */
  lemma OnlyRuleAnswers(table: seq<Entry>, i: nat, h: seq<byte>, m: byte)
    requires OnlyRule(table, i)
    ensures var rule := table[i].rule;
            AnswerTo(table, h, m)
            == if Reached(rule, h, m) && !(rule.oneShot && EverReached(rule, h)) then rule.fault else NoFault
  {
    OnlyRuleCounts(table, i, h);
    OnlyRuleFires(table, i, h, m);
  }

  /** With two rules that a message reaches, the one in the lower slot answers. */
  lemma LowerSlotWins(table: seq<Entry>, h: seq<byte>, m: byte, i: nat, j: nat)
    requires i < j < |table| && Fires(table, h, m, i)
    ensures FirstMatch(table, h, m) <= i && FirstMatch(table, h, m) != j
  {
  }

  // ---- A rule added later is as good as absent before ----

  /** Slot i is unused in `before` and holds, in `after`, a rule added when n messages had been checked. */
  ghost predicate Adds(before: seq<Entry>, after: seq<Entry>, i: nat, n: nat) {
    && i < |before| == |after| && before[i].rule.fault == NoFault && after[i].since == n
    && after == before[i := after[i]]
  }

  ghost predicate SameAccount(a: seq<Entry>, b: seq<Entry>, h: seq<byte>)
    requires |a| == |b|
  {
    forall j :: 0 <= j < |a| ==> (HasFired(a, h, j) <==> HasFired(b, h, j)) && Matches(a, h, j) == Matches(b, h, j)
  }

  lemma {:induction false} SameMatchFrom(a: seq<Entry>, b: seq<Entry>, i: nat, h: seq<byte>, m: byte, k: nat)
    requires i < |a| == |b| && Adds(a, b, i, b[i].since) && |h| < b[i].since && SameAccount(a, b, h) && k <= |a|
    ensures MatchFrom(a, h, m, k) == MatchFrom(b, h, m, k)
    decreases |a| - k
  {
    if k < |a| {
      assert k != i ==> a[k] == b[k];
      assert Live(a, h, k) <==> Live(b, h, k);
      assert Fires(a, h, m, k) <==> Fires(b, h, m, k);
      SameMatchFrom(a, b, i, h, m, k + 1);
    }
  }

  /** Adding a rule changes nothing in the account of the messages before it. */
  lemma {:induction false} AddedLater(a: seq<Entry>, b: seq<Entry>, i: nat, h: seq<byte>)
    requires i < |a| == |b| && Adds(a, b, i, b[i].since) && |h| <= b[i].since
    ensures SameAccount(a, b, h) && !HasFired(b, h, i) && Matches(b, h, i) == 0
    decreases |h|
  {
    if h != [] {
      var g, m := Front(h), Last(h);
      assert h == g + [m];
      AddedLater(a, b, i, g);
      SameMatchFrom(a, b, i, g, m, 0);
      forall j | 0 <= j < |a|
        ensures (HasFired(a, h, j) <==> HasFired(b, h, j)) && Matches(a, h, j) == Matches(b, h, j)
      {
        SameNext(a, b, i, g, m, j);
      }
      assert !Live(b, g, i);
    }
  }

  lemma SameNext(a: seq<Entry>, b: seq<Entry>, i: nat, h: seq<byte>, m: byte, j: nat)
    requires i < |a| == |b| && Adds(a, b, i, b[i].since) && |h| < b[i].since && SameAccount(a, b, h) && j < |a|
    requires FirstMatch(a, h, m) == FirstMatch(b, h, m)
    ensures HasFired(a, h + [m], j) <==> HasFired(b, h + [m], j)
    ensures Matches(a, h + [m], j) == Matches(b, h + [m], j)
  {
    OneMore(a, h, m, j);
    OneMore(b, h, m, j);
    assert j != i ==> a[j] == b[j];
    assert Live(a, h, j) <==> Live(b, h, j);
  }

  // ---- The rule engine ----

  /** A slot's counter and flag say what the history h says of rule j. */
  ghost predicate Shows(rule: Rule, fired: bool, table: seq<Entry>, h: seq<byte>, j: nat)
    requires j < |table|
  {
    rule.currentCount == Matches(table, h, j) && fired == (table[j].rule.oneShot && HasFired(table, h, j))
  }

  /** A slot that another rule answered before, or that did not answer, is as the longer history says. */
  lemma ShowsMore(rule: Rule, fired: bool, table: seq<Entry>, h: seq<byte>, m: byte, j: nat)
    requires j < |table| && Shows(rule, fired, table, h, j) && FirstMatch(table, h, m) < j
    ensures Shows(rule, fired, table, h + [m], j)
  {
    OneMore(table, h, m, j);
  }

  /** What one slot makes of message m, the `total`-th: its rule and flag before and after, and whether it answers. */
  predicate Evaluated(r: Rule, fired: bool, m: byte, total: uint32, r': Rule, fired': bool, triggered: bool) {
    var live := r.fault != NoFault && !(r.oneShot && fired);
    var counts := live && r.trigger == AfterNOfType && m == r.messageType;
    && r' == (if counts then r.(currentCount := (r.currentCount + 1) % TWO_32) else r)
    && triggered == (live && match r.trigger
                             case Immediate => true
                             case AfterNMessages => total >= r.triggerCount
                             case OnMessageType => m == r.messageType
                             case AfterNOfType => counts && r'.currentCount >= r.triggerCount)
    && fired' == (fired || (triggered && r.oneShot))
  }

  /** A slot that no earlier one has answered before does what the history says. */
  lemma EvaluatedShows(r: Rule, fired: bool, m: byte, total: uint32, r': Rule, fired': bool, triggered: bool,
                       table: seq<Entry>, h: seq<byte>, i: nat)
    requires i < |table| && table[i].since <= |h| && r == table[i].rule.(currentCount := r.currentCount)
    requires Shows(r, fired, table, h, i) && FirstMatch(table, h, m) >= i
    requires total == |h| + 1 && |h| + 1 < TWO_32 && Evaluated(r, fired, m, total, r', fired', triggered)
    ensures triggered <==> Fires(table, h, m, i)
    ensures triggered <==> FirstMatch(table, h, m) == i
    ensures Shows(r', fired', table, h + [m], i)
  {
    OneMore(table, h, m, i);
    assert Live(table, h, i) <==> r.fault != NoFault && !(r.oneShot && fired);
    assert triggered <==> Fires(table, h, m, i);
  }

  class FaultInject {
    const rules: array<Rule>
    const ruleFired: array<bool>
    var total: uint32
    ghost var table: seq<Entry>
    ghost var history: seq<byte>

    /** The table as configured, the history, and counters that show the history while they have not wrapped. */
    ghost predicate Valid()
      reads this, rules, ruleFired
    {
      && rules.Length == ruleFired.Length == |table| == MAX_RULES
      && (forall i :: 0 <= i < MAX_RULES ==> rules[i] == table[i].rule.(currentCount := rules[i].currentCount))
      && (forall i :: 0 <= i < MAX_RULES ==> table[i].since <= |history|)
      && (|history| < TWO_32 ==>
            && total == |history|
            && forall i :: 0 <= i < MAX_RULES ==> Shows(rules[i], ruleFired[i], table, history, i))
    }

    constructor ()
      ensures Valid() && fresh(rules) && fresh(ruleFired)
      ensures history == [] && table == seq(MAX_RULES, i => NO_ENTRY)
    {
      rules := new Rule[MAX_RULES](i => UNUSED);
      ruleFired := new bool[MAX_RULES](i => false);
      total := 0;
      table := seq(MAX_RULES, i => NO_ENTRY);
      history := [];
    }

    /** Takes the first unused slot and returns it, or -1 if there is none; the rule counts from here on. */
    method AddRule(rule: Rule) returns (slot: int)
      requires Valid()
      modifies this`table, rules, ruleFired
      ensures Valid() && history == old(history)
      ensures -1 <= slot < MAX_RULES
      ensures slot == -1 <==> forall i :: 0 <= i < MAX_RULES ==> old(table)[i].rule.fault != NoFault
      ensures slot >= 0 ==> forall i :: 0 <= i < slot ==> old(table)[i].rule.fault != NoFault
      ensures slot >= 0 ==> old(table)[slot].rule.fault == NoFault
      ensures table == if slot >= 0 then old(table)[slot := Entry(rule.(currentCount := 0), |history|)] else old(table)
    {
      var i := 0;
      while i < MAX_RULES
        invariant 0 <= i <= MAX_RULES && Valid() && table == old(table)
        invariant rules[..] == old(rules[..]) && ruleFired[..] == old(ruleFired[..])
        invariant forall j :: 0 <= j < i ==> table[j].rule.fault != NoFault
      {
        if rules[i].fault == NoFault {
          ghost var before := table;
          rules[i] := rule.(currentCount := 0);
          ruleFired[i] := false;
          table := table[i := Entry(rule.(currentCount := 0), |history|)];
          AddedLater(before, table, i, history);
          return i;
        }
        i := i + 1;
      }
      slot := -1;
    }

    method Reset()
      requires Valid()
      modifies this`total, this`table, this`history, rules, ruleFired
      ensures Valid() && history == [] && table == seq(MAX_RULES, i => NO_ENTRY)
    {
      forall i | 0 <= i < MAX_RULES {
        rules[i] := UNUSED;
      }
      forall i | 0 <= i < MAX_RULES {
        ruleFired[i] := false;
      }
      total := 0;
      table := seq(MAX_RULES, i => NO_ENTRY);
      history := [];
    }

    /** The loop body: whether slot i answers message m, with its counter and its fired flag brought up to date. */
    method Evaluate(i: nat, m: byte) returns (triggered: bool)
      requires i < MAX_RULES && rules.Length == ruleFired.Length == MAX_RULES
      modifies rules, ruleFired
      ensures forall j :: 0 <= j < MAX_RULES && j != i ==>
                rules[j] == old(rules[j]) && ruleFired[j] == old(ruleFired[j])
      ensures Evaluated(old(rules[i]), old(ruleFired[i]), m, total, rules[i], ruleFired[i], triggered)
    {
      triggered := false;
      var rule := rules[i];
      if rule.fault == NoFault || (rule.oneShot && ruleFired[i]) {
        return;
      }
      match rule.trigger {
        case Immediate => triggered := true;
        case AfterNMessages => triggered := total >= rule.triggerCount;
        case OnMessageType => triggered := m == rule.messageType;
        case AfterNOfType =>
          if m == rule.messageType {
            rules[i] := rule.(currentCount := (rule.currentCount + 1) % TWO_32);
            triggered := rules[i].currentCount >= rule.triggerCount;
          }
      }
      if triggered && rule.oneShot {
        ruleFired[i] := true;
      }
    }

    /** For any table and any history shorter than 2^32: the answer is the first match, and the counters follow. */
    method Check(m: byte) returns (fault: Fault)
      requires Valid()
      modifies this`total, this`history, rules, ruleFired
      ensures Valid() && history == old(history) + [m] && table == old(table)
      ensures |history| < TWO_32 ==> fault == AnswerTo(table, old(history), m)
    {
      total := (total + 1) % TWO_32;
      fault := NoFault;
      ghost var h, w, exact := history, FirstMatch(table, history, m), |history| + 1 < TWO_32;
      history := history + [m];
      var i := 0;
      while i < MAX_RULES
        invariant 0 <= i <= MAX_RULES && table == old(table) && history == h + [m] && fault == NoFault
        invariant forall j :: 0 <= j < MAX_RULES ==> rules[j] == table[j].rule.(currentCount := rules[j].currentCount)
        invariant forall j :: 0 <= j < MAX_RULES ==> table[j].since <= |h|
        invariant exact ==> i <= w && total == |h| + 1
        invariant exact ==> forall j :: 0 <= j < i ==> Shows(rules[j], ruleFired[j], table, h + [m], j)
        invariant exact ==> forall j :: i <= j < MAX_RULES ==> Shows(rules[j], ruleFired[j], table, h, j)
      {
        ghost var rule, fired := rules[i], ruleFired[i];
        var triggered := Evaluate(i, m);
        if exact {
          EvaluatedShows(rule, fired, m, total, rules[i], ruleFired[i], triggered, table, h, i);
        }
        if triggered {
          fault := rules[i].fault;
          forall j | i < j < MAX_RULES && exact ensures Shows(rules[j], ruleFired[j], table, h + [m], j) {
            ShowsMore(rules[j], ruleFired[j], table, h, m, j);
          }
          return;
        }
        i := i + 1;
      }
    }
  }
}
