// Attribute triggers of authenticator maps: does a user's attribute data satisfy
// the conditions, joined by "or" or by "and".
module Attributes {
  import opened Hierarchy

  datatype Join = Or | And

  datatype TriggerResult = Allow | Deny | Skip

  // What "in" is compared with; anything but a list makes the condition invalid.
  datatype InValue = Listed(values: seq<string>) | NotAList

  // The operators of one attribute's condition; others holds when it has keys
  // that are not operators.
  datatype Condition = Condition(
    equals: Option<string>,
    matches: Option<string>,
    contains: Option<string>,
    endsWith: Option<string>,
    isIn: Option<InValue>,
    others: bool)

  datatype UserValue = Null | Single(value: string) | Several(values: seq<string>)

  // Case folding and regular expressions are left to the standard library.
  datatype Text = Text(fold: string -> string, regex: (string, string) -> bool)

  type Trigger = seq<(string, Condition)>
  type UserData = map<string, UserValue>

  // The user's attributes as given, in the order of the dictionary.
  type AttributeList = seq<(string, UserValue)>

  const NO_CONDITION := Condition(None, None, None, None, None, false)

  // ---- preparation: names, trigger values and the join are folded ----

  function FoldedText(t: Text, text: Option<string>): Option<string> {
    if text.Some? then Some(t.fold(text.value)) else None
  }

  function FoldedCondition(t: Text, c: Condition): Condition {
    var isIn :=
      match c.isIn
      case Some(Listed(ws)) => Some(Listed(seq(|ws|, i requires 0 <= i < |ws| => t.fold(ws[i]))))
      case _ => c.isIn;
    Condition(FoldedText(t, c.equals), FoldedText(t, c.matches), FoldedText(t, c.contains),
              FoldedText(t, c.endsWith), isIn, c.others)
  }

  // Assignment to a dictionary: a key that is there keeps its place.
  function Put(entries: Trigger, name: string, c: Condition): Trigger {
    if entries == [] then [(name, c)]
    else if entries[0].0 == name then [(name, c)] + entries[1..]
    else [entries[0]] + Put(entries[1..], name, c)
  }

  function PreparedTrigger(t: Text, raw: Trigger): Trigger {
    if raw == [] then []
    else
      var last := raw[|raw| - 1];
      Put(PreparedTrigger(t, raw[..|raw| - 1]), t.fold(last.0), FoldedCondition(t, last.1))
  }

  function PreparedData(t: Text, raw: AttributeList): UserData {
    if raw == [] then map[]
    else
      var last := raw[|raw| - 1];
      PreparedData(t, raw[..|raw| - 1])[t.fold(last.0) := last.1]
  }

  // An unknown join condition counts as "or", as does a missing one.
  function ValidJoin(t: Text, join: Option<string>): Join {
    if FoldedText(t, join) == Some("and") then And else Or
  }

  ghost predicate NamedOnce(trigger: Trigger) {
    forall i, j :: 0 <= i < j < |trigger| ==> trigger[i].0 != trigger[j].0
  }

  lemma {:induction false} PutMeans(entries: Trigger, name: string, c: Condition, e: (string, Condition))
    requires NamedOnce(entries)
    ensures NamedOnce(Put(entries, name, c))
    ensures e in Put(entries, name, c) <==> if e.0 == name then e.1 == c else e in entries
  {
    if entries != [] {
      var rest := entries[1..];
      assert forall x :: x in entries <==> x == entries[0] || x in rest;
      if entries[0].0 != name {
        forall x ensures NamedOnce(Put(rest, name, c)) &&
          (x in Put(rest, name, c) <==> if x.0 == name then x.1 == c else x in rest)
        {
          PutMeans(rest, name, c, x);
        }
        assert forall x :: x in Put(rest, name, c) ==> x.0 != entries[0].0;
      }
    }
  }

  // Of the entries whose names differ only in case the last one counts, once.
  lemma {:induction false} PreparedTriggerMeans(t: Text, raw: Trigger, e: (string, Condition))
    ensures NamedOnce(PreparedTrigger(t, raw))
    ensures e in PreparedTrigger(t, raw) <==> exists i :: (
      && 0 <= i < |raw| && t.fold(raw[i].0) == e.0 && FoldedCondition(t, raw[i].1) == e.1
      && forall j :: i < j < |raw| ==> t.fold(raw[j].0) != e.0)
  {
    if raw != [] {
      var n := |raw| - 1;
      PreparedTriggerMeans(t, raw[..n], e);
      PutMeans(PreparedTrigger(t, raw[..n]), t.fold(raw[n].0), FoldedCondition(t, raw[n].1), e);
      if t.fold(raw[n].0) != e.0 {
        forall i | 0 <= i < n ensures raw[..n][i] == raw[i] {}
      }
    }
  }

  lemma {:induction false} PreparedDataMeans(t: Text, raw: AttributeList, name: string)
    ensures name in PreparedData(t, raw) <==> exists i :: 0 <= i < |raw| && t.fold(raw[i].0) == name
    ensures forall i :: (
      (0 <= i < |raw| && t.fold(raw[i].0) == name && forall j :: i < j < |raw| ==> t.fold(raw[j].0) != name) ==>
        PreparedData(t, raw)[name] == raw[i].1)
  {
    if raw != [] {
      var n := |raw| - 1;
      PreparedDataMeans(t, raw[..n], name);
      forall i | 0 <= i < n ensures raw[..n][i] == raw[i] {}
    }
  }

  method PrepareTrigger(t: Text, raw: Trigger) returns (trigger: Trigger)
    ensures trigger == PreparedTrigger(t, raw)
  {
    trigger := [];
    for n := 0 to |raw|
      invariant trigger == PreparedTrigger(t, raw[..n])
    {
      assert raw[..n + 1][..n] == raw[..n];
      trigger := Put(trigger, t.fold(raw[n].0), FoldedCondition(t, raw[n].1));
    }
    assert raw[..|raw|] == raw;
  }

  method PrepareData(t: Text, raw: AttributeList) returns (data: UserData)
    ensures data == PreparedData(t, raw)
  {
    data := map[];
    for n := 0 to |raw|
      invariant data == PreparedData(t, raw[..n])
    {
      assert raw[..n + 1][..n] == raw[..n];
      data := data[t.fold(raw[n].0) := raw[n].1];
    }
    assert raw[..|raw|] == raw;
  }

  // ---- operators on one value ----

  predicate Contains(text: string, part: string) {
    exists i :: 0 <= i <= |text| && part <= text[i..]
  }

  predicate EndsWith(text: string, part: string) {
    |part| <= |text| && text[|text| - |part|..] == part
  }

  predicate HasOperator(c: Condition) {
    c.equals.Some? || c.matches.Some? || c.contains.Some? || c.endsWith.Some? || c.isIn.Some?
  }

  // The first operator present decides, in the order equals, matches, contains, ends_with, in.
  predicate Holds(t: Text, c: Condition, value: string)
    requires HasOperator(c) && c.isIn != Some(NotAList)
  {
    var v := t.fold(value);
    if c.equals.Some? then v == c.equals.value
    else if c.matches.Some? then t.regex(c.matches.value, v)
    else if c.contains.Some? then Contains(v, c.contains.value)
    else if c.endsWith.Some? then EndsWith(v, c.endsWith.value)
    else exists w :: w in c.isIn.value.values && v == t.fold(w)
  }

  lemma ContainsMeans(text: string, part: string)
    ensures Contains(text, part) <==> exists before, after :: text == before + part + after
    ensures EndsWith(text, part) <==> exists before :: text == before + part
  {
    if Contains(text, part) {
      var i :| 0 <= i <= |text| && part <= text[i..];
      assert text == text[..i] + part + text[i + |part|..];
    }
    forall before, after | text == before + part + after ensures Contains(text, part) {
      assert text[|before|..] == part + after;
    }
    if EndsWith(text, part) {
      assert text == text[..|text| - |part|] + part;
    }
  }

  // The first operator present decides.
  lemma HoldsMeans(t: Text, c: Condition, value: string)
    requires c.isIn != Some(NotAList)
    ensures c.equals.Some? ==> HasOperator(c) && (Holds(t, c, value) <==> t.fold(value) == c.equals.value)
    ensures c.equals.None? && c.matches.Some? ==>
      HasOperator(c) && (Holds(t, c, value) <==> t.regex(c.matches.value, t.fold(value)))
    ensures c.equals.None? && c.matches.None? && c.contains.Some? ==>
      HasOperator(c) &&
      (Holds(t, c, value) <==> exists before, after :: t.fold(value) == before + c.contains.value + after)
    ensures c.equals.None? && c.matches.None? && c.contains.None? && c.endsWith.Some? ==>
      HasOperator(c) && (Holds(t, c, value) <==> exists before :: t.fold(value) == before + c.endsWith.value)
    ensures c.equals.None? && c.matches.None? && c.contains.None? && c.endsWith.None? && c.isIn.Some? ==>
      HasOperator(c) && (Holds(t, c, value) <==> exists w :: w in c.isIn.value.values && t.fold(value) == t.fold(w))
    ensures c.equals.None? && c.matches.None? && c.contains.None? && c.endsWith.None? && c.isIn.None? ==>
      !HasOperator(c)
  {
    if c.contains.Some? { ContainsMeans(t.fold(value), c.contains.value); }
    if c.endsWith.Some? { ContainsMeans(t.fold(value), c.endsWith.value); }
  }

  // One test per value.
  function ValueTests(t: Text, c: Condition, values: seq<string>): seq<bool>
    requires HasOperator(c) && c.isIn != Some(NotAList)
  {
    seq(|values|, i requires 0 <= i < |values| => Holds(t, c, values[i]))
  }

  function ValuesOf(u: UserValue): seq<string> {
    match u
    case Null => []
    case Single(v) => [v]
    case Several(vs) => vs
  }

  // ---- the plain meaning: every test an attribute gives rise to, nothing skipped ----

  function TestsOf(t: Text, user: UserData, join: Join, attribute: string, c: Condition): seq<bool> {
    if c.isIn == Some(NotAList) then []
    else if c == NO_CONDITION then [attribute in user]
    else if attribute !in user || user[attribute].Null? then (if join.And? then [false] else [])
    else if !HasOperator(c) then []
    else
      ValueTests(t, c, ValuesOf(user[attribute]))
  }

  function AllTests(t: Text, user: UserData, join: Join, trigger: Trigger): seq<bool> {
    if trigger == [] then []
    else TestsOf(t, user, join, trigger[0].0, trigger[0].1) + AllTests(t, user, join, trigger[1..])
  }

  // "or" wants a test that passes; "and" wants at least one test and none that fails.
  predicate Satisfied(tests: seq<bool>, join: Join) {
    match join
    case Or => true in tests
    case And => tests != [] && false !in tests
  }

  predicate Granted(t: Text, user: UserData, join: Join, trigger: Trigger) {
    Satisfied(AllTests(t, user, join, trigger), join)
  }

  // ---- the code: one verdict carried along, with early exits ----

  // has_access_with_join
  function HasAccessWithJoin(current: Option<bool>, added: bool, join: Join): Option<bool> {
    match current
    case None => Some(added)
    case Some(b) => Some(if join.Or? then b || added else b && added)
  }

  // _check_early_exit
  predicate EarlyExit(access: Option<bool>, join: Join) {
    (access == Some(true) && join.Or?) || (access == Some(false) && join.And?)
  }

  // What the verdict carried along is after the given tests, shortened or not.
  function Verdict(tests: seq<bool>, join: Join): Option<bool> {
    if tests == [] then None else Some(Satisfied(tests, join))
  }

  lemma VerdictOfJoined(tests: seq<bool>, more: seq<bool>, join: Join)
    requires more != []
    ensures Verdict(tests + more, join) == HasAccessWithJoin(Verdict(tests, join), Satisfied(more, join), join)
  {
    assert forall b :: b in tests + more <==> b in tests || b in more;
  }

  // Once the verdict is final no further test changes it.
  lemma FinalVerdict(tests: seq<bool>, more: seq<bool>, join: Join)
    requires EarlyExit(Verdict(tests, join), join)
    ensures Verdict(tests + more, join) == Verdict(tests, join)
  {
    assert forall b :: b in tests + more <==> b in tests || b in more;
  }

  // The set comparison of "in", instead of a loop over the values.
  method ProcessInOperator(t: Text, access: Option<bool>, listed: seq<string>, values: seq<string>, join: Join,
    ghost tests: seq<bool>, ghost c: Condition) returns (r: Option<bool>)
    requires values != [] && access == Verdict(tests, join)
    requires c.isIn == Some(Listed(listed))
    requires c.equals.None? && c.matches.None? && c.contains.None? && c.endsWith.None?
    ensures r == Verdict(tests + ValueTests(t, c, values), join)
  {
    var triggerSet := set w | w in listed :: t.fold(w);
    var userSet := set v | v in values :: t.fold(v);
    var matched := userSet * triggerSet;
    var result := if join.Or? then matched != {} else userSet <= triggerSet;
    r := HasAccessWithJoin(access, result, join);
    ghost var more := ValueTests(t, c, values);
    InBySets(t, c, listed, values, join);
    VerdictOfJoined(tests, more, join);
  }

  lemma InBySets(t: Text, c: Condition, listed: seq<string>, values: seq<string>, join: Join)
    requires values != [] && c.isIn == Some(Listed(listed))
    requires c.equals.None? && c.matches.None? && c.contains.None? && c.endsWith.None?
    ensures var triggerSet := set w | w in listed :: t.fold(w);
            var userSet := set v | v in values :: t.fold(v);
            Satisfied(ValueTests(t, c, values), join) <==>
            if join.Or? then userSet * triggerSet != {} else userSet <= triggerSet
  {
    var triggerSet := set w | w in listed :: t.fold(w);
    var userSet := set v | v in values :: t.fold(v);
    var more := ValueTests(t, c, values);
    assert forall v :: v in values ==> (Holds(t, c, v) <==> t.fold(v) in triggerSet);
    if join.Or? {
      if true in more {
        var i :| 0 <= i < |more| && more[i];
        assert values[i] in values && t.fold(values[i]) in userSet * triggerSet;
      }
      if userSet * triggerSet != {} {
        var x :| x in userSet * triggerSet;
        var v :| v in values && t.fold(v) == x;
        var i :| 0 <= i < |values| && values[i] == v;
        assert more[i];
      }
    } else {
      if false !in more {
        forall x | x in userSet ensures x in triggerSet {
          var v :| v in values && t.fold(v) == x;
          var i :| 0 <= i < |values| && values[i] == v;
          assert more[i] in more;
        }
      }
      if userSet <= triggerSet {
        forall i | 0 <= i < |more| ensures more[i] {
          assert values[i] in values && t.fold(values[i]) in userSet;
        }
      }
    }
  }

  // A test that decides the join makes the verdict final.
  lemma DecidedByOne(tests: seq<bool>, more: seq<bool>, n: nat, join: Join)
    requires 0 < n <= |more| && more[n - 1] == join.Or?
    ensures Verdict(tests + more, join) == Verdict(tests + more[..n], join)
  {
    assert (tests + more[..n])[|tests| + n - 1] == more[n - 1];
    FinalVerdict(tests + more[..n], more[n..], join);
    assert tests + more == tests + more[..n] + more[n..];
  }

  // The loop over values for the other operators, left as soon as the join is decided.
  method ProcessScalarOperator(t: Text, access: Option<bool>, c: Condition, values: seq<string>, join: Join,
    ghost tests: seq<bool>) returns (r: Option<bool>)
    requires access == Verdict(tests, join)
    requires HasOperator(c) && c.isIn != Some(NotAList)
    ensures r == Verdict(tests + ValueTests(t, c, values), join)
  {
    r := access;
    ghost var more := ValueTests(t, c, values);
    assert tests + more[..0] == tests;
    var n := 0;
    while n < |values|
      invariant n <= |values| && r == Verdict(tests + more[..n], join)
    {
      var result := Holds(t, c, values[n]);
      r := HasAccessWithJoin(r, result, join);
      VerdictOfJoined(tests + more[..n], [result], join);
      assert tests + more[..n + 1] == tests + more[..n] + [result];
      n := n + 1;
      if (result && join.Or?) || (!result && join.And?) {
        DecidedByOne(tests, more, n, join);
        return;
      }
    }
    assert more[..n] == more;
  }

  method ProcessUserValue(t: Text, access: Option<bool>, c: Condition, values: seq<string>, join: Join,
    ghost tests: seq<bool>) returns (r: Option<bool>)
    requires access == Verdict(tests, join) && c.isIn != Some(NotAList)
    ensures r == Verdict(tests + (if HasOperator(c) then ValueTests(t, c, values)
                                  else []), join)
  {
    if !HasOperator(c) || values == [] {
      assert tests + [] == tests;
      return access;
    }
    if c.equals.None? && c.matches.None? && c.contains.None? && c.endsWith.None? {
      r := ProcessInOperator(t, access, c.isIn.value.values, values, join, tests, c);
    } else {
      r := ProcessScalarOperator(t, access, c, values, join, tests);
    }
  }

  // The body of the loop over attributes.
  method ProcessAttribute(t: Text, access: Option<bool>, attribute: string, c: Condition, user: UserData, join: Join,
    ghost tests: seq<bool>) returns (r: Option<bool>)
    requires access == Verdict(tests, join)
    ensures r == Verdict(tests + TestsOf(t, user, join, attribute, c), join)
  {
    assert tests + [] == tests;
    if c.isIn == Some(NotAList) {
      return access;
    }
    if c == NO_CONDITION {
      VerdictOfJoined(tests, [attribute in user], join);
      return HasAccessWithJoin(access, attribute in user, join);
    }
    if attribute !in user || user[attribute].Null? {
      if join.And? {
        VerdictOfJoined(tests, [false], join);
        return HasAccessWithJoin(access, false, join);
      }
      return access;
    }
    r := ProcessUserValue(t, access, c, ValuesOf(user[attribute]), join, tests);
  }

  lemma TestsFrom(t: Text, user: UserData, join: Join, trigger: Trigger, n: nat, tests: seq<bool>)
    requires n < |trigger|
    ensures tests + AllTests(t, user, join, trigger[n..]) ==
            (tests + TestsOf(t, user, join, trigger[n].0, trigger[n].1)) + AllTests(t, user, join, trigger[n + 1..])
  {
    assert trigger[n..][1..] == trigger[n + 1..];
  }

  // Whether the user's attributes meet the trigger, both as given.
  predicate Meets(t: Text, given: AttributeList, joinCondition: Option<string>, raw: Trigger) {
    Granted(t, PreparedData(t, given), ValidJoin(t, joinCondition), PreparedTrigger(t, raw))
  }

  method ProcessUserAttributes(t: Text, raw: Trigger, joinCondition: Option<string>, given: AttributeList)
    returns (r: TriggerResult)
    ensures r == if Meets(t, given, joinCondition, raw) then Allow else Skip
    ensures r == Allow <==>
      Granted(t, PreparedData(t, given),
              if joinCondition.Some? && t.fold(joinCondition.value) == "and" then And else Or, PreparedTrigger(t, raw))
  {
    var trigger := PrepareTrigger(t, raw);
    var user := PrepareData(t, given);
    var join := ValidJoin(t, joinCondition);
    var access: Option<bool> := None;
    ghost var tests: seq<bool> := [];
    assert trigger[0..] == trigger;
    assert [] + AllTests(t, user, join, trigger) == AllTests(t, user, join, trigger);
    var n := 0;
    while n < |trigger| && !EarlyExit(access, join)
      invariant n <= |trigger| && access == Verdict(tests, join)
      invariant tests + AllTests(t, user, join, trigger[n..]) == AllTests(t, user, join, trigger)
      decreases |trigger| - n
    {
      access := ProcessAttribute(t, access, trigger[n].0, trigger[n].1, user, join, tests);
      TestsFrom(t, user, join, trigger, n, tests);
      tests := tests + TestsOf(t, user, join, trigger[n].0, trigger[n].1);
      n := n + 1;
    }
    if n < |trigger| {
      FinalVerdict(tests, AllTests(t, user, join, trigger[n..]), join);
    } else {
      assert tests + [] == tests;
    }
    assert access == Verdict(AllTests(t, user, join, trigger), join);
    r := if access == Some(true) then Allow else Skip;
  }

  // ---- order ----

  // The same user data up to the order and repetition of an attribute's values.
  ghost predicate SameValues(a: UserData, b: UserData) {
    && a.Keys == b.Keys
    && (forall k :: k in a ==>
          && (a[k].Null? <==> b[k].Null?)
          && (forall v :: v in ValuesOf(a[k]) <==> v in ValuesOf(b[k])))
  }

  lemma SameTests(t: Text, a: UserData, b: UserData, join: Join, attribute: string, c: Condition, result: bool)
    requires SameValues(a, b) && result in TestsOf(t, a, join, attribute, c)
    ensures result in TestsOf(t, b, join, attribute, c)
  {
    if c.isIn != Some(NotAList) && c != NO_CONDITION && attribute in a && !a[attribute].Null? {
      var values, others := ValuesOf(a[attribute]), ValuesOf(b[attribute]);
      var i :| 0 <= i < |values| && result == Holds(t, c, values[i]);
      assert values[i] in values && values[i] in others;
      var j :| 0 <= j < |others| && others[j] == values[i];
      assert TestsOf(t, b, join, attribute, c)[j] == result;
    }
  }

  lemma {:induction false} TestsOfAll(t: Text, user: UserData, join: Join, trigger: Trigger, result: bool)
    ensures result in AllTests(t, user, join, trigger) <==>
              exists e :: e in trigger && result in TestsOf(t, user, join, e.0, e.1)
  {
    if trigger != [] {
      TestsOfAll(t, user, join, trigger[1..], result);
      assert trigger == [trigger[0]] + trigger[1..];
      if result in TestsOf(t, user, join, trigger[0].0, trigger[0].1) {
        assert trigger[0] in trigger;
      }
    }
  }

  // Neither the order of the attributes nor that of their values changes the answer.
  lemma OrderDoesNotMatter(t: Text, a: UserData, b: UserData, join: Join, trigger: Trigger, shuffled: Trigger)
    requires SameValues(a, b) && forall e :: e in trigger <==> e in shuffled
    ensures Granted(t, a, join, trigger) <==> Granted(t, b, join, shuffled)
  {
    forall result: bool
      ensures result in AllTests(t, a, join, trigger) <==> result in AllTests(t, b, join, shuffled)
    {
      TestsOfAll(t, a, join, trigger, result);
      TestsOfAll(t, b, join, shuffled, result);
      forall e | e in trigger
        ensures result in TestsOf(t, a, join, e.0, e.1) <==> result in TestsOf(t, b, join, e.0, e.1)
      {
        if result in TestsOf(t, a, join, e.0, e.1) { SameTests(t, a, b, join, e.0, e.1, result); }
        if result in TestsOf(t, b, join, e.0, e.1) { SameTests(t, b, a, join, e.0, e.1, result); }
      }
    }
    NonemptyHasMember(AllTests(t, a, join, trigger));
    NonemptyHasMember(AllTests(t, b, join, shuffled));
  }

  // ---- the answer in terms of attributes and values ----

  // The user has the attribute, with a value that meets the condition if there is one.
  ghost predicate Passes(t: Text, user: UserData, attribute: string, c: Condition) {
    && c.isIn != Some(NotAList) && attribute in user
    && (c == NO_CONDITION ||
        (HasOperator(c) && exists v :: v in ValuesOf(user[attribute]) && Holds(t, c, v)))
  }

  // The user lacks the attribute, or has a value that does not meet the condition.
  ghost predicate Fails(t: Text, user: UserData, attribute: string, c: Condition) {
    && c.isIn != Some(NotAList)
    && (attribute !in user
        || (c != NO_CONDITION && user[attribute].Null?)
        || (c != NO_CONDITION && HasOperator(c) && exists v :: v in ValuesOf(user[attribute]) && !Holds(t, c, v)))
  }

  lemma PassingTest(t: Text, user: UserData, join: Join, attribute: string, c: Condition)
    ensures true in TestsOf(t, user, join, attribute, c) <==> Passes(t, user, attribute, c)
  {
    if c.isIn != Some(NotAList) && c != NO_CONDITION && attribute in user && !user[attribute].Null? && HasOperator(c) {
      var values, tests := ValuesOf(user[attribute]), TestsOf(t, user, join, attribute, c);
      if v :| v in values && Holds(t, c, v) {
        var i :| 0 <= i < |values| && values[i] == v;
        assert tests[i];
      }
      if true in tests {
        var i :| 0 <= i < |tests| && tests[i];
        assert values[i] in values;
      }
    }
  }

  lemma FailingTest(t: Text, user: UserData, attribute: string, c: Condition)
    ensures false in TestsOf(t, user, And, attribute, c) <==> Fails(t, user, attribute, c)
  {
    if c.isIn != Some(NotAList) && c != NO_CONDITION && attribute in user && !user[attribute].Null? && HasOperator(c) {
      var values, tests := ValuesOf(user[attribute]), TestsOf(t, user, And, attribute, c);
      if v :| v in values && !Holds(t, c, v) {
        var i :| 0 <= i < |values| && values[i] == v;
        assert !tests[i] && tests[i] in tests;
      }
      if false in tests {
        var i :| 0 <= i < |tests| && !tests[i];
        assert values[i] in values;
      }
    }
  }

  // "or" is granted exactly when some attribute passes; "and" exactly when none
  // fails and some passes, so a trigger that asks nothing grants nothing.
  lemma GrantedMeans(t: Text, user: UserData, trigger: Trigger)
    ensures Granted(t, user, Or, trigger) <==> exists e :: e in trigger && Passes(t, user, e.0, e.1)
    ensures Granted(t, user, And, trigger) <==>
              && (exists e :: e in trigger && Passes(t, user, e.0, e.1))
              && (forall e :: e in trigger ==> !Fails(t, user, e.0, e.1))
  {
    forall join: Join
      ensures true in AllTests(t, user, join, trigger) <==> exists e :: e in trigger && Passes(t, user, e.0, e.1)
    {
      TestsOfAll(t, user, join, trigger, true);
      forall e | e in trigger
        ensures true in TestsOf(t, user, join, e.0, e.1) <==> Passes(t, user, e.0, e.1)
      {
        PassingTest(t, user, join, e.0, e.1);
      }
    }
    TestsOfAll(t, user, And, trigger, false);
    forall e | e in trigger
      ensures false in TestsOf(t, user, And, e.0, e.1) <==> Fails(t, user, e.0, e.1)
    {
      FailingTest(t, user, e.0, e.1);
    }
    NonemptyHasMember(AllTests(t, user, And, trigger));
  }

  lemma NonemptyHasMember(tests: seq<bool>)
    ensures tests != [] <==> true in tests || false in tests
  {
    if tests != [] {
      var first := tests[0];
      assert first in tests && (first == true || first == false);
    }
  }

  // ---- upper and lower case ----

  ghost predicate AlikeLists(t: Text, a: seq<string>, b: seq<string>) {
    |a| == |b| && forall i :: 0 <= i < |a| ==> t.fold(a[i]) == t.fold(b[i])
  }

  ghost predicate AlikeOptions(t: Text, a: Option<string>, b: Option<string>) {
    if a.Some? then b.Some? && t.fold(a.value) == t.fold(b.value) else b.None?
  }

  ghost predicate AlikeConditions(t: Text, c: Condition, d: Condition) {
    && AlikeOptions(t, c.equals, d.equals) && AlikeOptions(t, c.matches, d.matches)
    && AlikeOptions(t, c.contains, d.contains) && AlikeOptions(t, c.endsWith, d.endsWith) && c.others == d.others
    && match (c.isIn, d.isIn)
       case (Some(Listed(a)), Some(Listed(b))) => AlikeLists(t, a, b)
       case _ => c.isIn == d.isIn
  }

  ghost predicate AlikeValues(t: Text, a: UserValue, b: UserValue) {
    (a.Null? <==> b.Null?) && AlikeLists(t, ValuesOf(a), ValuesOf(b))
  }

  ghost predicate AlikeTriggers(t: Text, a: Trigger, b: Trigger) {
    |a| == |b| && forall i :: 0 <= i < |a| ==> t.fold(a[i].0) == t.fold(b[i].0) && AlikeConditions(t, a[i].1, b[i].1)
  }

  ghost predicate AlikeAttributes(t: Text, a: AttributeList, b: AttributeList) {
    |a| == |b| && forall i :: 0 <= i < |a| ==> t.fold(a[i].0) == t.fold(b[i].0) && AlikeValues(t, a[i].1, b[i].1)
  }

  ghost predicate AlikeData(t: Text, a: UserData, b: UserData) {
    a.Keys == b.Keys && forall k :: k in a ==> AlikeValues(t, a[k], b[k])
  }

  lemma {:induction false} AlikeTriggersPrepared(t: Text, a: Trigger, b: Trigger)
    requires AlikeTriggers(t, a, b)
    ensures PreparedTrigger(t, a) == PreparedTrigger(t, b)
  {
    if a != [] {
      var n := |a| - 1;
      AlikeTriggersPrepared(t, a[..n], b[..n]);
      var c, d := FoldedCondition(t, a[n].1), FoldedCondition(t, b[n].1);
      if c.isIn.Some? && c.isIn.value.Listed? {
        assert c.isIn.value.values == d.isIn.value.values;
      }
    }
  }

  lemma {:induction false} AlikeAttributesPrepared(t: Text, a: AttributeList, b: AttributeList)
    requires AlikeAttributes(t, a, b)
    ensures AlikeData(t, PreparedData(t, a), PreparedData(t, b))
  {
    if a != [] {
      var n := |a| - 1;
      AlikeAttributesPrepared(t, a[..n], b[..n]);
    }
  }

  lemma {:induction false} AlikeDataTests(t: Text, a: UserData, b: UserData, join: Join, trigger: Trigger)
    requires AlikeData(t, a, b)
    ensures AllTests(t, a, join, trigger) == AllTests(t, b, join, trigger)
  {
    if trigger != [] {
      AlikeDataTests(t, a, b, join, trigger[1..]);
      var attribute, c := trigger[0].0, trigger[0].1;
      assert TestsOf(t, a, join, attribute, c) == TestsOf(t, b, join, attribute, c);
    }
  }

  // Names, trigger values, the join and the user's values may be in any case.
  lemma CaseDoesNotMatter(t: Text, given: AttributeList, given': AttributeList, join: Option<string>,
                          join': Option<string>, raw: Trigger, raw': Trigger)
    requires AlikeAttributes(t, given, given') && AlikeOptions(t, join, join') && AlikeTriggers(t, raw, raw')
    ensures Meets(t, given, join, raw) <==> Meets(t, given', join', raw')
  {
    AlikeTriggersPrepared(t, raw, raw');
    AlikeAttributesPrepared(t, given, given');
    AlikeDataTests(t, PreparedData(t, given), PreparedData(t, given'), ValidJoin(t, join), PreparedTrigger(t, raw));
  }
}
