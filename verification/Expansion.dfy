// Expanding the templates of an authenticator map with a user's attribute values.
module Expansion {
  import opened Hierarchy

  // A piece of a template: plain text, a well-formed expansion of an attribute,
  // or something that looks like an expansion and is none.
  datatype Token = Lit(text: string) | Hole(attr: string) | Broken(text: string)

  type Template = seq<Token>

  // A value is text, which may itself contain expansion syntax, or something else.
  datatype Value = Words(tokens: Template) | NotText

  datatype AttrData = Single(value: Value) | Several(values: seq<Value>)

  type UserAttrs = map<string, AttrData>

  // The three fields of a map that may hold templates.
  datatype Templates = Templates(organization: Option<Template>, role: Option<Template>, team: Option<Template>)

  // One expansion; a field missing from the dictionary is None.
  datatype Expanded = Expanded(organization: Option<string>, role: Option<string>, team: Option<string>)

  function HolesOf(t: Template): seq<string> {
    if t == [] then []
    else (if t[0].Hole? then [t[0].attr] else []) + HolesOf(t[1..])
  }

  function Render(t: Template): string {
    if t == [] then []
    else (match t[0]
          case Hole(attr) => "{% for_attr_value(" + attr + ") %}"
          case Lit(text) => text
          case Broken(text) => text) + Render(t[1..])
  }

  // Substitution at the first hole only.
  function Replaced(t: Template, value: Template): Template {
    if t == [] then []
    else if t[0].Hole? then value + t[1..]
    else [t[0]] + Replaced(t[1..], value)
  }

  // A rendering is read token by token.
  lemma {:induction false} RenderMeans(a: Template, b: Template, text: string)
    ensures Render(a + b) == Render(a) + Render(b)
    ensures Render([]) == [] && Render([Lit(text)]) == text && Render([Broken(text)]) == text
    ensures Render([Hole(text)]) == "{% for_attr_value(" + text + ") %}"
  {
    assert Render([Lit(text)]) == text + Render([]) == text;
    assert Render([Broken(text)]) == text + Render([]) == text;
    var hole := "{% for_attr_value(" + text + ") %}";
    assert Render([Hole(text)]) == hole + Render([]) == hole;
    if a == [] {
      assert a + b == b;
    } else {
      RenderMeans(a[1..], b, text);
      assert (a + b)[1..] == a[1..] + b;
    }
  }

  lemma {:induction false} HoleIsNamed(t: Template, a: string)
    ensures a in HolesOf(t) <==> Hole(a) in t
  {
    if t != [] {
      HoleIsNamed(t[1..], a);
      assert t == [t[0]] + t[1..];
    }
  }

  // The value takes the place of the first hole and nothing else moves.
  lemma {:induction false} ReplacedAt(before: Template, attr: string, after: Template, value: Template)
    requires forall token :: token in before ==> !token.Hole?
    ensures Replaced(before + [Hole(attr)] + after, value) == before + value + after
    ensures Replaced(before, value) == before
  {
    var t := before + [Hole(attr)] + after;
    if before == [] {
      assert t[1..] == after && before + value == value;
    } else {
      assert before[0] in before && forall token :: token in before[1..] ==> token in before;
      ReplacedAt(before[1..], attr, after, value);
      assert t[1..] == before[1..] + [Hole(attr)] + after;
      assert before == [before[0]] + before[1..];
      assert [before[0]] + (before[1..] + value + after) == before + value + after;
    }
  }

  // ---- _expand_strings ----

  function ReplacedIn(strings: seq<Template>, value: Template): seq<Template> {
    if strings == [] then []
    else ReplacedIn(strings[..|strings| - 1], value) + [Replaced(strings[|strings| - 1], value)]
  }

  function OnePass(values: seq<Template>, strings: seq<Template>): seq<Template> {
    if values == [] then [] else OnePass(values[..|values| - 1], strings) + ReplacedIn(strings, values[|values| - 1])
  }

  function ExpandedStrings(attrs: seq<string>, normalized: map<string, seq<Template>>,
    strings: seq<Template>)
    : seq<Template>
    requires forall a :: a in attrs ==> a in normalized
  {
    if attrs == [] then strings
    else ExpandedStrings(attrs[1..], normalized, OnePass(normalized[attrs[0]], strings))
  }

  method ExpandStrings(attrs: seq<string>, normalized: map<string, seq<Template>>, start: seq<Template>)
    returns (strings: seq<Template>)
    requires forall a :: a in attrs ==> a in normalized
    ensures strings == ExpandedStrings(attrs, normalized, start)
  {
    strings := start;
    assert attrs[0..] == attrs;
    for i := 0 to |attrs|
      invariant ExpandedStrings(attrs[i..], normalized, strings) == ExpandedStrings(attrs, normalized, start)
    {
      assert attrs[i] in attrs && attrs[i..][0] == attrs[i] && attrs[i..][1..] == attrs[i + 1..];
      var values := normalized[attrs[i]];
      var newStrings: seq<Template> := [];
      for v := 0 to |values|
        invariant newStrings == OnePass(values[..v], strings)
      {
        assert values[..v + 1][..v] == values[..v];
        ghost var before := newStrings;
        for s := 0 to |strings|
          invariant newStrings == before + ReplacedIn(strings[..s], values[v])
        {
          assert strings[..s + 1][..s] == strings[..s];
          newStrings := newStrings + [Replaced(strings[s], values[v])];
        }
        assert strings[..|strings|] == strings;
      }
      assert values[..|values|] == values;
      strings := newStrings;
    }
  }

  // ---- what expansion means: every hole filled independently ----

  function Fill(t: Template, choice: seq<Template>): Template
    requires |choice| == |HolesOf(t)|
  {
    if t == [] then []
    else if t[0].Hole? then choice[0] + Fill(t[1..], choice[1..])
    else [t[0]] + Fill(t[1..], choice)
  }

  // Filling goes token by token, each hole taking the next of the choices.
  lemma {:induction false} FillJoined(a: Template, b: Template, choice: seq<Template>, more: seq<Template>)
    requires |choice| == |HolesOf(a)| && |more| == |HolesOf(b)|
    ensures |HolesOf(a + b)| == |choice| + |more| && Fill(a + b, choice + more) == Fill(a, choice) + Fill(b, more)
  {
    HolesOfJoined(a, b);
    if a == [] {
      assert a + b == b && choice + more == more;
      assert Fill(b, more) == Fill(a, choice) + Fill(b, more);
    } else {
      assert (a + b)[1..] == a[1..] + b;
      if a[0].Hole? {
        FillJoined(a[1..], b, choice[1..], more);
        assert (choice + more)[1..] == choice[1..] + more;
        assert choice[0] + (Fill(a[1..], choice[1..]) + Fill(b, more)) == Fill(a, choice) + Fill(b, more);
      } else {
        FillJoined(a[1..], b, choice, more);
        assert [a[0]] + (Fill(a[1..], choice) + Fill(b, more)) == Fill(a, choice) + Fill(b, more);
      }
    }
  }

  lemma FillOne(token: Token, value: Template)
    ensures token.Hole? ==> |HolesOf([token])| == 1 && Fill([token], [value]) == value
    ensures !token.Hole? ==> HolesOf([token]) == [] && Fill([token], []) == [token]
  {
    assert [token][1..] == [] && [value][1..] == [];
    assert Fill([], []) == [];
  }

  ghost predicate IsChoice(attrs: seq<string>, normalized: map<string, seq<Template>>, choice: seq<Template>)
    requires forall a :: a in attrs ==> a in normalized
  {
    |choice| == |attrs| && forall i :: 0 <= i < |attrs| ==> choice[i] in normalized[attrs[i]]
  }

  // The choices substituted one after the other, each at the first hole there then is.
  function Substituted(t: Template, choice: seq<Template>): Template
    decreases |choice|
  {
    if choice == [] then t else Substituted(Replaced(t, choice[0]), choice[1..])
  }

  // How many holes the chosen values bring.
  function HolesBrought(choice: seq<Template>): nat {
    if choice == [] then 0 else |HolesOf(choice[0])| + HolesBrought(choice[1..])
  }

  // No value for a hole other than the last has a hole.
  ghost predicate HoleFreeBeforeLast(attrs: seq<string>, normalized: map<string, seq<Template>>)
    requires forall a :: a in attrs ==> a in normalized
  {
    forall i, v :: 0 <= i < |attrs| - 1 && v in normalized[attrs[i]] ==> HolesOf(v) == []
  }

  ghost predicate HoleFree(attrs: seq<string>, normalized: map<string, seq<Template>>)
    requires forall a :: a in attrs ==> a in normalized
  {
    forall a, v :: a in attrs && v in normalized[a] ==> HolesOf(v) == []
  }

  function ProductOfLengths(attrs: seq<string>, normalized: map<string, seq<Template>>): nat
    requires forall a :: a in attrs ==> a in normalized
  {
    if attrs == [] then 1 else |normalized[attrs[0]]| * ProductOfLengths(attrs[1..], normalized)
  }

  lemma {:induction false} FillAfterValue(value: Template, t: Template, choice: seq<Template>)
    requires HolesOf(value) == [] && |choice| == |HolesOf(t)|
    ensures HolesOf(value + t) == HolesOf(t) && Fill(value + t, choice) == value + Fill(t, choice)
  {
    if value == [] {
      assert value + t == t;
      assert value + Fill(t, choice) == Fill(t, choice);
    } else {
      assert (value + t)[1..] == value[1..] + t;
      FillAfterValue(value[1..], t, choice);
      assert [value[0]] + (value[1..] + Fill(t, choice)) == value + Fill(t, choice);
    }
  }

  // Substituting a value without holes is choosing for the first hole.
  lemma {:induction false} FillAfterReplaced(t: Template, value: Template, rest: seq<Template>)
    requires HolesOf(value) == [] && |HolesOf(t)| == |rest| + 1
    ensures HolesOf(Replaced(t, value)) == HolesOf(t)[1..]
    ensures Fill(Replaced(t, value), rest) == Fill(t, [value] + rest)
  {
    assert ([value] + rest)[1..] == rest;
    if t[0].Hole? {
      FillAfterValue(value, t[1..], rest);
    } else {
      FillAfterReplaced(t[1..], value, rest);
      var r := Replaced(t, value);
      assert r[1..] == Replaced(t[1..], value);
    }
  }

  lemma {:induction false} ReplacedInHas(strings: seq<Template>, value: Template, r: Template)
    ensures r in ReplacedIn(strings, value) <==> exists s :: s in strings && r == Replaced(s, value)
  {
    if strings != [] {
      var n := |strings| - 1;
      ReplacedInHas(strings[..n], value, r);
      assert strings == strings[..n] + [strings[n]];
      if s :| s in strings && r == Replaced(s, value) {
        assert s in strings[..n] || s == strings[n];
      }
    }
  }

  ghost predicate Comes(values: seq<Template>, strings: seq<Template>, r: Template) {
    exists s, v :: s in strings && v in values && r == Replaced(s, v)
  }

  lemma {:induction false} OnePassHas(values: seq<Template>, strings: seq<Template>, r: Template)
    ensures r in OnePass(values, strings) <==> Comes(values, strings, r)
  {
    if values != [] {
      var n := |values| - 1;
      OnePassHas(values[..n], strings, r);
      ReplacedInHas(strings, values[n], r);
      assert values == values[..n] + [values[n]];
      if Comes(values, strings, r) {
        var s, v :| s in strings && v in values && r == Replaced(s, v);
        assert v in values[..n] || v == values[n];
      }
    }
  }

  lemma {:induction false} ReplacedInCounts(strings: seq<Template>, value: Template)
    ensures |ReplacedIn(strings, value)| == |strings|
  {
    if strings != [] {
      ReplacedInCounts(strings[..|strings| - 1], value);
    }
  }

  lemma {:induction false} OnePassCounts(values: seq<Template>, strings: seq<Template>)
    ensures |OnePass(values, strings)| == |values| * |strings|
  {
    if values != [] {
      var n := |values| - 1;
      OnePassCounts(values[..n], strings);
      ReplacedInCounts(strings, values[n]);
      assert |values| * |strings| == n * |strings| + |strings|;
    }
  }

  lemma Regrouped(a: int, b: int, c: int)
    ensures b * (a * c) == (a * b) * c
  {
    assert b * (a * c) == (b * a) * c;
  }

  // As many strings as there are combinations of values, repetitions counted.
  lemma {:induction false} ExpandedCounts(attrs: seq<string>, normalized: map<string, seq<Template>>,
    strings: seq<Template>)
    requires forall a :: a in attrs ==> a in normalized
    ensures |ExpandedStrings(attrs, normalized, strings)| == ProductOfLengths(attrs, normalized) * |strings|
    decreases |attrs|
  {
    if attrs != [] {
      var a, b, c := |normalized[attrs[0]]|, ProductOfLengths(attrs[1..], normalized), |strings|;
      var next := OnePass(normalized[attrs[0]], strings);
      OnePassCounts(normalized[attrs[0]], strings);
      ExpandedCounts(attrs[1..], normalized, next);
      assert ExpandedStrings(attrs, normalized, strings) == ExpandedStrings(attrs[1..], normalized, next);
      Regrouped(a, b, c);
    }
  }

  // ---- every expanded string is one choice of values, substituted in turn ----

  ghost predicate SubstitutesOne(attrs: seq<string>, normalized: map<string, seq<Template>>, strings: seq<Template>,
    r: Template)
    requires forall a :: a in attrs ==> a in normalized
  {
    exists s, choice :: s in strings && IsChoice(attrs, normalized, choice) && r == Substituted(s, choice)
  }

  lemma ChoiceWith(attrs: seq<string>, normalized: map<string, seq<Template>>, v: Template, rest: seq<Template>)
    requires attrs != [] && (forall a :: a in attrs ==> a in normalized)
    ensures IsChoice(attrs, normalized, [v] + rest) <==>
      v in normalized[attrs[0]] && IsChoice(attrs[1..], normalized, rest)
    ensures ([v] + rest)[1..] == rest
  {
    if IsChoice(attrs, normalized, [v] + rest) {
      forall i | 0 <= i < |attrs[1..]| ensures rest[i] in normalized[attrs[1..][i]] {
        assert ([v] + rest)[i + 1] == rest[i];
      }
    }
  }

  lemma {:induction false} ExpandedSubstitutes(attrs: seq<string>, normalized: map<string, seq<Template>>,
    strings: seq<Template>, r: Template)
    requires forall a :: a in attrs ==> a in normalized
    ensures r in ExpandedStrings(attrs, normalized, strings) <==> SubstitutesOne(attrs, normalized, strings, r)
    decreases |attrs|
  {
    if attrs == [] {
      if r in strings {
        assert IsChoice(attrs, normalized, []) && Substituted(r, []) == r;
      }
    } else {
      ExpandedSubstitutes(attrs[1..], normalized, OnePass(normalized[attrs[0]], strings), r);
      FirstThenRest(attrs, normalized, strings, r);
    }
  }

  // Substituting for the first hole and then for the others is substituting for all of them.
  lemma FirstThenRest(attrs: seq<string>, normalized: map<string, seq<Template>>, strings: seq<Template>, r: Template)
    requires attrs != [] && forall a :: a in attrs ==> a in normalized
    ensures SubstitutesOne(attrs[1..], normalized, OnePass(normalized[attrs[0]], strings), r) <==>
              SubstitutesOne(attrs, normalized, strings, r)
  {
    var next := OnePass(normalized[attrs[0]], strings);
    if SubstitutesOne(attrs[1..], normalized, next, r) {
      var n, rest :| n in next && IsChoice(attrs[1..], normalized, rest) && r == Substituted(n, rest);
      Together(attrs, normalized, strings, n, rest);
    }
    if SubstitutesOne(attrs, normalized, strings, r) {
      var s, choice :| s in strings && IsChoice(attrs, normalized, choice) && r == Substituted(s, choice);
      Apart(attrs, normalized, strings, s, choice);
    }
  }

  lemma Together(attrs: seq<string>, normalized: map<string, seq<Template>>, strings: seq<Template>, n: Template,
    rest: seq<Template>)
    requires attrs != [] && forall a :: a in attrs ==> a in normalized
    requires n in OnePass(normalized[attrs[0]], strings) && IsChoice(attrs[1..], normalized, rest)
    ensures SubstitutesOne(attrs, normalized, strings, Substituted(n, rest))
  {
    OnePassHas(normalized[attrs[0]], strings, n);
    var s, v :| s in strings && v in normalized[attrs[0]] && n == Replaced(s, v);
    ChoiceWith(attrs, normalized, v, rest);
    assert Substituted(s, [v] + rest) == Substituted(n, rest);
  }

  lemma Apart(attrs: seq<string>, normalized: map<string, seq<Template>>, strings: seq<Template>, s: Template,
    choice: seq<Template>)
    requires attrs != [] && forall a :: a in attrs ==> a in normalized
    requires s in strings && IsChoice(attrs, normalized, choice)
    ensures SubstitutesOne(attrs[1..], normalized, OnePass(normalized[attrs[0]], strings), Substituted(s, choice))
  {
    var v, rest := choice[0], choice[1..];
    assert choice == [v] + rest;
    ChoiceWith(attrs, normalized, v, rest);
    OnePassHas(normalized[attrs[0]], strings, Replaced(s, v));
    assert Substituted(s, choice) == Substituted(Replaced(s, v), rest);
  }

  lemma {:induction false} HolesOfJoined(a: Template, b: Template)
    ensures HolesOf(a + b) == HolesOf(a) + HolesOf(b)
  {
    if a == [] {
      assert a + b == b;
    } else {
      assert (a + b)[1..] == a[1..] + b;
      HolesOfJoined(a[1..], b);
    }
  }

  lemma HolesAfterText(token: Token, t: Template)
    requires !token.Hole?
    ensures HolesOf([token] + t) == HolesOf(t)
  {
    assert ([token] + t)[1..] == t;
  }

  // A pass takes the first hole away and puts the value's holes in its place.
  lemma {:induction false} HolesAfterReplaced(t: Template, value: Template)
    ensures HolesOf(Replaced(t, value)) == if HolesOf(t) == [] then [] else HolesOf(value) + HolesOf(t)[1..]
  {
    if t == [] {
    } else if t[0].Hole? {
      HolesOfJoined(value, t[1..]);
      assert HolesOf(t)[1..] == HolesOf(t[1..]);
    } else {
      HolesAfterReplaced(t[1..], value);
      HolesAfterText(t[0], Replaced(t[1..], value));
      HolesAfterText(t[0], t[1..]);
      assert t == [t[0]] + t[1..];
    }
  }

  // With a substitution per hole of the template, as many holes are left as the values brought.
  lemma {:induction false} HolesLeft(t: Template, choice: seq<Template>)
    requires |choice| <= |HolesOf(t)|
    ensures |HolesOf(Substituted(t, choice))| == |HolesOf(t)| - |choice| + HolesBrought(choice)
    decreases |choice|
  {
    if choice != [] {
      HolesAfterReplaced(t, choice[0]);
      HolesLeft(Replaced(t, choice[0]), choice[1..]);
    }
  }

  lemma {:induction false} BringsNone(choice: seq<Template>)
    ensures HolesBrought(choice) == 0 <==> forall v :: v in choice ==> HolesOf(v) == []
  {
    if choice != [] {
      BringsNone(choice[1..]);
      assert choice[0] in choice && forall v :: v in choice[1..] ==> v in choice;
      if HolesBrought(choice) == 0 {
        forall v | v in choice ensures HolesOf(v) == [] {
          assert v == choice[0] || v in choice[1..];
        }
      }
    }
  }

  // A value with a hole, chosen for a hole of the template, leaves a hole.
  lemma ChoiceWithHole(t: Template, normalized: map<string, seq<Template>>, i: nat, v: Template)
    returns (choice: seq<Template>)
    requires forall a :: a in HolesOf(t) ==> a in normalized && normalized[a] != []
    requires i < |HolesOf(t)| && v in normalized[HolesOf(t)[i]] && HolesOf(v) != []
    ensures IsChoice(HolesOf(t), normalized, choice) && HolesOf(Substituted(t, choice)) != []
  {
    var attrs := HolesOf(t);
    assert forall k :: 0 <= k < |attrs| ==> attrs[k] in attrs;
    var some := seq(|attrs|, k requires 0 <= k < |attrs| => normalized[attrs[k]][0]);
    choice := some[i := v];
    assert choice[i] == v && v in choice;
    HolesLeft(t, choice);
    BringsNone(choice);
  }

  lemma ChoiceWithoutHoles(t: Template, normalized: map<string, seq<Template>>, choice: seq<Template>)
    requires (forall a :: a in HolesOf(t) ==> a in normalized) && HoleFree(HolesOf(t), normalized)
    requires IsChoice(HolesOf(t), normalized, choice)
    ensures HolesOf(Substituted(t, choice)) == []
  {
    forall v | v in choice ensures HolesOf(v) == [] {
      var i :| 0 <= i < |choice| && choice[i] == v;
      assert HolesOf(t)[i] in HolesOf(t);
    }
    HolesLeft(t, choice);
    BringsNone(choice);
  }

  // Every hole of every expanded string is filled if and only if no value used has a hole.
  lemma AllFilledIff(t: Template, normalized: map<string, seq<Template>>)
    requires forall a :: a in HolesOf(t) ==> a in normalized && normalized[a] != []
    ensures (forall r :: r in ExpandedStrings(HolesOf(t), normalized, [t]) ==> HolesOf(r) == []) <==>
              HoleFree(HolesOf(t), normalized)
  {
    var attrs := HolesOf(t);
    if HoleFree(attrs, normalized) {
      forall r | r in ExpandedStrings(attrs, normalized, [t])
        ensures HolesOf(r) == []
      {
        ExpandedSubstitutes(attrs, normalized, [t], r);
        var choice :| IsChoice(attrs, normalized, choice) && r == Substituted(t, choice);
        ChoiceWithoutHoles(t, normalized, choice);
      }
    } else {
      var a, v :| a in attrs && v in normalized[a] && HolesOf(v) != [];
      var i :| 0 <= i < |attrs| && attrs[i] == a;
      var choice := ChoiceWithHole(t, normalized, i, v);
      ExpandedSubstitutes(attrs, normalized, [t], Substituted(t, choice));
      assert t in [t];
    }
  }

  // ---- and a filling of the template, if only the last value may have a hole ----

  lemma {:induction false} SubstitutedIsFill(t: Template, choice: seq<Template>)
    requires |choice| == |HolesOf(t)|
    requires forall i :: 0 <= i < |choice| - 1 ==> HolesOf(choice[i]) == []
    ensures Substituted(t, choice) == Fill(t, choice)
    decreases |choice|
  {
    if choice == [] {
      FillNothing(t);
    } else if |choice| == 1 {
      FillLast(t, choice[0]);
      assert choice == [choice[0]] && choice[1..] == [];
      assert Substituted(Replaced(t, choice[0]), []) == Replaced(t, choice[0]);
    } else {
      assert choice == [choice[0]] + choice[1..];
      FillAfterReplaced(t, choice[0], choice[1..]);
      SubstitutedIsFill(Replaced(t, choice[0]), choice[1..]);
    }
  }

  lemma {:induction false} FillNothing(t: Template)
    requires HolesOf(t) == []
    ensures Fill(t, []) == t
  {
    if t != [] {
      FillNothing(t[1..]);
    }
  }

  lemma {:induction false} FillLast(t: Template, value: Template)
    requires |HolesOf(t)| == 1
    ensures Replaced(t, value) == Fill(t, [value])
  {
    if t[0].Hole? {
      FillNothing(t[1..]);
      assert [value][1..] == [];
    } else {
      FillLast(t[1..], value);
    }
  }

  lemma ChoiceIsFill(t: Template, normalized: map<string, seq<Template>>, choice: seq<Template>)
    requires (forall a :: a in HolesOf(t) ==> a in normalized) && HoleFreeBeforeLast(HolesOf(t), normalized)
    requires IsChoice(HolesOf(t), normalized, choice)
    ensures Substituted(t, choice) == Fill(t, choice)
  {
    SubstitutedIsFill(t, choice);
  }

  // The main statement for one template.
  lemma AllFillings(t: Template, normalized: map<string, seq<Template>>, r: Template)
    requires (forall a :: a in HolesOf(t) ==> a in normalized) && HoleFreeBeforeLast(HolesOf(t), normalized)
    ensures |ExpandedStrings(HolesOf(t), normalized, [t])| == ProductOfLengths(HolesOf(t), normalized)
    ensures r in ExpandedStrings(HolesOf(t), normalized, [t]) <==>
              exists choice :: IsChoice(HolesOf(t), normalized, choice) && r == Fill(t, choice)
  {
    ExpandedCounts(HolesOf(t), normalized, [t]);
    ExpandedSubstitutes(HolesOf(t), normalized, [t], r);
    forall choice | IsChoice(HolesOf(t), normalized, choice) ensures Substituted(t, choice) == Fill(t, choice) {
      ChoiceIsFill(t, normalized, choice);
    }
    if choice :| IsChoice(HolesOf(t), normalized, choice) && r == Fill(t, choice) {
      assert t in [t] && r == Substituted(t, choice);
    }
  }

  // ---- which fields can be expanded ----

  function ValuesOf(d: AttrData): seq<Value> {
    match d
    case Single(v) => [v]
    case Several(vs) => vs
  }

  predicate Usable(attrs: UserAttrs, a: string) {
    a in attrs && ValuesOf(attrs[a]) != [] && forall v :: v in ValuesOf(attrs[a]) ==> v.Words?
  }

  function TextsOf(attrs: UserAttrs, a: string): seq<Template>
    requires Usable(attrs, a)
  {
    var values := ValuesOf(attrs[a]);
    seq(|values|, i requires 0 <= i < |values| => assert values[i] in values; values[i].tokens)
  }

  function Normalized(attrs: UserAttrs, used: seq<string>): map<string, seq<Template>>
    requires forall a :: a in used ==> Usable(attrs, a)
  {
    map a | a in used :: TextsOf(attrs, a)
  }

  // _normalize_attributes, with None for its ValueError
  method NormalizeAttributes(attrs: UserAttrs, used: seq<string>) returns (r: Option<map<string, seq<Template>>>)
    ensures r == if forall a :: a in used ==> Usable(attrs, a) then Some(Normalized(attrs, used)) else None
  {
    var normalized: map<string, seq<Template>> := map[];
    var errors := false;
    for i := 0 to |used|
      invariant errors <==> !forall a :: a in used[..i] ==> Usable(attrs, a)
      invariant !errors ==> normalized == Normalized(attrs, used[..i])
    {
      assert used[..i + 1] == used[..i] + [used[i]];
      assert forall a :: a in used[..i + 1] <==> a in used[..i] || a == used[i];
      var values := if used[i] in attrs then ValuesOf(attrs[used[i]]) else [];
      if values == [] || exists v :: v in values && v.NotText? {
        assert !Usable(attrs, used[i]) && used[i] in used[..i + 1];
        errors := true;
      } else {
        normalized := normalized[used[i] := TextsOf(attrs, used[i])];
      }
    }
    assert used[..|used|] == used;
    r := if errors then None else Some(normalized);
  }

  // The texts of one field; None when the field cannot be expanded.
  function FieldTexts(attrs: UserAttrs, t: Template): Option<seq<string>> {
    if HolesOf(t) == [] && (exists token :: token in t && token.Broken?) then None
    else if exists a :: a in HolesOf(t) && !Usable(attrs, a) then None
    else Some(Rendered(ExpandedStrings(HolesOf(t), Normalized(attrs, HolesOf(t)), [t])))
  }

  // What is used of an attribute: its texts in their order, if it has any and nothing else.
  lemma UsableMeans(attrs: UserAttrs, a: string)
    ensures Usable(attrs, a) <==>
      !(a !in attrs || attrs[a] == Several([]) || attrs[a] == Single(NotText) ||
        (attrs[a].Several? && NotText in attrs[a].values))
    ensures Usable(attrs, a) && attrs[a].Single? ==>
      |TextsOf(attrs, a)| == 1 && Words(TextsOf(attrs, a)[0]) == attrs[a].value
    ensures Usable(attrs, a) && attrs[a].Several? ==>
      |TextsOf(attrs, a)| == |attrs[a].values| &&
      forall i :: 0 <= i < |attrs[a].values| ==> Words(TextsOf(attrs, a)[i]) == attrs[a].values[i]
  {
    if a in attrs {
      var values := ValuesOf(attrs[a]);
      assert forall v: Value :: v.Words? <==> v != NotText;
      assert NotText !in values <==> forall v :: v in values ==> v.Words?;
      if attrs[a].Single? { assert attrs[a].value == values[0] && values[0] in values; }
    }
  }

  // A field cannot be expanded when it names an attribute that is missing, empty, or not text, or
  // when it names none and has something malformed.
  lemma CannotExpandIff(attrs: UserAttrs, t: Template)
    ensures FieldTexts(attrs, t).None? <==>
      || ((forall token :: token in t ==> !token.Hole?) && exists token :: token in t && token.Broken?)
      || (exists a :: Hole(a) in t &&
            (a !in attrs || attrs[a] == Several([]) || attrs[a] == Single(NotText) ||
             (attrs[a].Several? && NotText in attrs[a].values)))
  {
    forall a ensures a in HolesOf(t) <==> Hole(a) in t { HoleIsNamed(t, a); }
    if token :| token in t && token.Hole? { assert token.attr in HolesOf(t); }
    assert HolesOf(t) != [] ==> HolesOf(t)[0] in HolesOf(t);
    if a :| a in HolesOf(t) && !Usable(attrs, a) {
      UsableMeans(attrs, a);
      assert Hole(a) in t;
    }
    forall a | Hole(a) in t { UsableMeans(attrs, a); }
  }

  function Rendered(strings: seq<Template>): seq<string> {
    seq(|strings|, i requires 0 <= i < |strings| => Render(strings[i]))
  }

  method ExpandField(t: Option<Template>, attrs: UserAttrs) returns (texts: Option<seq<string>>)
    ensures texts == if t.Some? then FieldTexts(attrs, t.value) else None
  {
    if t.None? {
      return None;
    }
    var used := HolesOf(t.value);
    if used == [] && exists token :: token in t.value && token.Broken? {
      return None;
    }
    if exists a :: a in used && a !in attrs {
      return None;
    }
    var normalized := NormalizeAttributes(attrs, used);
    if normalized.None? {
      return None;
    }
    var strings := ExpandStrings(used, normalized.value, [t.value]);
    texts := Some(Rendered(strings));
  }

  predicate Among(choice: Option<string>, texts: Option<seq<string>>) {
    if choice.None? then texts.None? else texts.Some? && choice.value in texts.value
  }

  function Candidates(texts: Option<seq<string>>): (r: seq<Option<string>>)
    ensures forall c :: c in r <==> Among(c, texts)
    ensures |r| == if texts.Some? then |texts.value| else 1
  {
    if texts.None? then [None]
    else
      var r := seq(|texts.value|, i requires 0 <= i < |texts.value| => Some(texts.value[i]));
      assert forall i :: 0 <= i < |texts.value| ==> r[i] == Some(texts.value[i]);
      r
  }

  // dict_cartesian_product: nothing at all for an empty dictionary, else every combination.
  method DictCartesianProduct(organizations: Option<seq<string>>, roles: Option<seq<string>>,
    teams: Option<seq<string>>)
    returns (r: seq<Expanded>)
    ensures forall e :: e in r <==>
              && (organizations.Some? || roles.Some? || teams.Some?)
              && Among(e.organization, organizations) && Among(e.role, roles) && Among(e.team, teams)
    ensures organizations.Some? || roles.Some? || teams.Some? ==>
              |r| == |Candidates(organizations)| * (|Candidates(roles)| * |Candidates(teams)|)
  {
    r := [];
    if organizations.None? && roles.None? && teams.None? {
      return;
    }
    var os, rs, ts := Candidates(organizations), Candidates(roles), Candidates(teams);
    for o := 0 to |os|
      invariant |r| == o * (|rs| * |ts|)
      invariant forall e :: e in r <==> e.organization in os[..o] && e.role in rs && e.team in ts
    {
      var some := CombineWith(os[o], rs, ts);
      r := r + some;
      assert os[..o + 1] == os[..o] + [os[o]];
      assert (o + 1) * (|rs| * |ts|) == o * (|rs| * |ts|) + |rs| * |ts|;
    }
    assert os[..|os|] == os;
  }

  method CombineWith(organization: Option<string>, rs: seq<Option<string>>, ts: seq<Option<string>>)
    returns (r: seq<Expanded>)
    ensures |r| == |rs| * |ts|
    ensures forall e :: e in r <==> e.organization == organization && e.role in rs && e.team in ts
  {
    r := [];
    for i := 0 to |rs|
      invariant |r| == i * |ts|
      invariant forall e :: e in r <==> e.organization == organization && e.role in rs[..i] && e.team in ts
    {
      ghost var before := r;
      assert rs[..i + 1] == rs[..i] + [rs[i]];
      for k := 0 to |ts|
        invariant |r| == |before| + k
        invariant forall e :: e in r <==>
          e in before || (e.organization == organization && e.role == rs[i] && e.team in ts[..k])
      {
        assert ts[..k + 1] == ts[..k] + [ts[k]];
        r := r + [Expanded(organization, rs[i], ts[k])];
      }
      assert ts[..|ts|] == ts;
      assert (i + 1) * |ts| == i * |ts| + |ts|;
    }
    assert rs[..|rs|] == rs;
  }

  ghost function TextsIn(t: Option<Template>, attrs: UserAttrs): Option<seq<string>> {
    if t.Some? then FieldTexts(attrs, t.value) else None
  }

  ghost predicate IsExpansion(templates: Templates, attrs: UserAttrs, e: Expanded) {
    && (|| TextsIn(templates.organization, attrs).Some?
        || TextsIn(templates.role, attrs).Some?
        || TextsIn(templates.team, attrs).Some?)
    && Among(e.organization, TextsIn(templates.organization, attrs))
    && Among(e.role, TextsIn(templates.role, attrs))
    && Among(e.team, TextsIn(templates.team, attrs))
  }

  method ExpandSyntax(templates: Templates, attrs: UserAttrs) returns (r: seq<Expanded>)
    ensures forall e :: e in r <==> IsExpansion(templates, attrs, e)
  {
    var organizations := ExpandField(templates.organization, attrs);
    var roles := ExpandField(templates.role, attrs);
    var teams := ExpandField(templates.team, attrs);
    r := DictCartesianProduct(organizations, roles, teams);
  }

  // ---- what a field expands to ----

  // A text is a filling of the template by values of the attributes it names.
  ghost predicate IsFilling(attrs: UserAttrs, t: Template, text: string) {
    && (forall a :: a in HolesOf(t) ==> Usable(attrs, a))
    && (exists choice :: IsChoice(HolesOf(t), Normalized(attrs, HolesOf(t)), choice) && text == Render(Fill(t, choice)))
  }

  // A field that can be expanded has exactly its fillings for texts, at least one, and as many
  // as the numbers of values multiply to, if only values of its last hole may have holes.
  lemma FieldTextsAreFillings(attrs: UserAttrs, t: Template, text: string)
    requires FieldTexts(attrs, t).Some? && HoleFreeBeforeLast(HolesOf(t), Normalized(attrs, HolesOf(t)))
    ensures text in FieldTexts(attrs, t).value <==> IsFilling(attrs, t, text)
    ensures |FieldTexts(attrs, t).value| == ProductOfLengths(HolesOf(t), Normalized(attrs, HolesOf(t))) > 0
  {
    var normalized := Normalized(attrs, HolesOf(t));
    AllFillings(t, normalized, []);
    ProductIsPositive(HolesOf(t), normalized);
    TextsOfFillings(attrs, t, text);
  }

  lemma TextsOfFillings(attrs: UserAttrs, t: Template, text: string)
    requires FieldTexts(attrs, t).Some? && HoleFreeBeforeLast(HolesOf(t), Normalized(attrs, HolesOf(t)))
    ensures text in FieldTexts(attrs, t).value <==> IsFilling(attrs, t, text)
  {
    var normalized := Normalized(attrs, HolesOf(t));
    var strings := ExpandedStrings(HolesOf(t), normalized, [t]);
    RenderedHas(strings, text);
    if r :| r in strings && Render(r) == text {
      AllFillings(t, normalized, r);
    }
    if IsFilling(attrs, t, text) {
      var choice :| IsChoice(HolesOf(t), normalized, choice) && text == Render(Fill(t, choice));
      AllFillings(t, normalized, Fill(t, choice));
    }
  }

  lemma RenderedHas(strings: seq<Template>, text: string)
    ensures text in Rendered(strings) <==> exists r :: r in strings && Render(r) == text
  {
    if text in Rendered(strings) {
      var i :| 0 <= i < |strings| && Render(strings[i]) == text;
      assert strings[i] in strings;
    }
    if r :| r in strings && Render(r) == text {
      var i :| 0 <= i < |strings| && strings[i] == r;
      assert Rendered(strings)[i] == text;
    }
  }

  lemma {:induction false} ProductIsPositive(attrs: seq<string>, normalized: map<string, seq<Template>>)
    requires forall a :: a in attrs ==> a in normalized && normalized[a] != []
    ensures ProductOfLengths(attrs, normalized) > 0
  {
    if attrs != [] {
      ProductIsPositive(attrs[1..], normalized);
    }
  }
}
