/** `TemplateProvider.RenderTemplate`: the template file is serialised, the placeholder
    names are read off that text, and every `{{name}}` whose name has an action argument
    is replaced, name by name, with the entity-substituted argument value. The entity
    substitution of the bot's memory is a parameter `subst`. */
module Render {
  import opened Wrappers
  import opened Strings
  import opened Json
  import opened Mustache

  /** `t.replace(new RegExp(p, 'g'), v)` for a literal pattern: every occurrence,
      leftmost first and without overlap. */
  function ReplaceAll(t: string, p: string, v: string): (r: string)
    requires |p| > 0
    ensures !Contains(t, p) ==> r == t
    decreases |t|
  {
    match After(t, p)
    case None => t
    case Some(rest) => Before(t, p) + v + ReplaceAll(rest, p, v)
  }

  /** `t.split(p)`: the pieces between the occurrences of p. None of them contains p. */
  function SplitOn(t: string, p: string): (r: seq<string>)
    requires |p| > 0
    ensures |r| > 0 && forall i :: 0 <= i < |r| ==> !Contains(r[i], p)
    decreases |t|
  {
    match After(t, p)
    case None => [t]
    case Some(rest) => [Before(t, p)] + SplitOn(rest, p)
  }

  /** `pieces.join(sep)`. */
  function Join(pieces: seq<string>, sep: string): string
    requires |pieces| > 0
  {
    if |pieces| == 1 then pieces[0] else pieces[0] + sep + Join(pieces[1..], sep)
  }

  /** Splitting on p and joining with p gives back the text. */
  lemma {:induction false} SplitOnJoin(t: string, p: string)
    requires |p| > 0
    ensures Join(SplitOn(t, p), p) == t
    decreases |t|
  {
    match After(t, p)
    case None =>
    case Some(rest) =>
      SplitOnJoin(rest, p);
  }

  /** Replacing all occurrences of p by v keeps every piece between them and puts v
      where each occurrence was: the text is `Join(pieces, p)` and the result is
      `Join(pieces, v)` for the same pieces, none of which contains p. */
  lemma {:induction false} ReplaceAllIsJoin(t: string, p: string, v: string)
    requires |p| > 0
    ensures ReplaceAll(t, p, v) == Join(SplitOn(t, p), v)
    decreases |t|
  {
    match After(t, p)
    case None =>
    case Some(rest) =>
      ReplaceAllIsJoin(rest, p, v);
  }

  /** The pattern a placeholder name is replaced through: `{{name}}`. */
  function Token(n: string): (r: string)
    ensures |r| == |n| + 4
  {
    "{{" + n + "}}"
  }

  /** The characters of an occurrence of `{{n}}` at i. */
  lemma TokenAt(t: string, i: int, n: string)
    requires NameRun(n) && OccursAt(t, i, Token(n))
    ensures t[i] == '{' && t[i + 1] == '{' && t[i + |n| + 2] == '}' && t[i + |n| + 3] == '}'
    ensures forall m :: i + 2 <= m < i + |n| + 2 ==> t[m] == n[m - i - 2] && IsNameChar(t[m])
  {
    var tn := Token(n);
    assert t[i..i + |tn|] == tn;
    forall m | i <= m < i + |tn| ensures t[m] == tn[m - i] {
      assert t[i..i + |tn|][m - i] == t[m];
    }
    forall m | i + 2 <= m < i + |n| + 2 ensures t[m] == n[m - i - 2] && IsNameChar(t[m]) {
      assert t[m] == tn[m - i] == n[m - i - 2];
    }
  }

  /** An occurrence of `{{b}}` cannot start inside an occurrence of `{{a}}` unless the two
      names are the same and the occurrences coincide. */
  lemma TokensDisjoint(t: string, i: int, a: string, j: int, b: string)
    requires NameRun(a) && NameRun(b)
    requires OccursAt(t, i, Token(a)) && OccursAt(t, j, Token(b))
    ensures i <= j < i + |Token(a)| ==> i == j && a == b
  {
    TokenAt(t, i, a);
    TokenAt(t, j, b);
    if i <= j < i + |Token(a)| {
      assert forall m :: i + 2 <= m < i + |a| + 4 ==> t[m] != '{';
      assert j != i + 1;
      assert |a| == |b|;
      forall k | 0 <= k < |a| ensures a[k] == b[k] {
        assert t[i + k + 2] == a[k] && t[i + k + 2] == b[k];
      }
    }
  }

  lemma OccursAtLeft(x: string, y: string, j: int, q: string)
    requires OccursAt(x, j, q)
    ensures OccursAt(x + y, j, q)
  {
    assert (x + y)[j..j + |q|] == x[j..j + |q|];
  }

  lemma OccursAtRight(x: string, y: string, j: int, q: string)
    requires OccursAt(y, j, q)
    ensures OccursAt(x + y, |x| + j, q)
  {
    assert (x + y)[|x| + j..|x| + j + |q|] == y[j..j + |q|];
  }

  lemma OccursAtInLeft(x: string, y: string, j: int, q: string)
    requires OccursAt(x + y, j, q) && j + |q| <= |x|
    ensures OccursAt(x, j, q)
  {
    assert (x + y)[j..j + |q|] == x[j..j + |q|];
  }

  lemma OccursAtInRight(x: string, y: string, j: int, q: string)
    requires OccursAt(x + y, j, q) && j >= |x|
    ensures OccursAt(y, j - |x|, q)
  {
    assert (x + y)[j..j + |q|] == y[j - |x|..j - |x| + |q|];
  }

  /** No occurrence of `{{a}}` overlaps an occurrence of q, in any text. */
  ghost predicate Apart(a: string, q: string)
  {
    forall t: string, i: int, j: int {:trigger OccursAt(t, i, Token(a)), OccursAt(t, j, q)} ::
      OccursAt(t, i, Token(a)) && OccursAt(t, j, q) ==> i + |Token(a)| <= j || j + |q| <= i
  }

  /** The placeholders of two different names never overlap. */
  lemma TokensApart(a: string, b: string)
    requires NameRun(a) && NameRun(b) && a != b
    ensures Apart(a, Token(b))
  {
    forall t: string, i: int, j: int | OccursAt(t, i, Token(a)) && OccursAt(t, j, Token(b))
      ensures i + |Token(a)| <= j || j + |Token(b)| <= i
    {
      TokensDisjoint(t, i, a, j, b);
      TokensDisjoint(t, j, b, i, a);
    }
  }

  /** Replacing all `{{a}}` leaves an occurrence of `{{b}}` in place when the names
      differ. */
  lemma ReplaceAllKeepsOtherToken(t: string, a: string, v: string, b: string)
    requires NameRun(a) && NameRun(b) && a != b
    requires Contains(t, Token(b))
    ensures Contains(ReplaceAll(t, Token(a), v), Token(b))
  {
    TokensApart(a, b);
    ReplaceAllKeepsApart(t, a, v, Token(b));
  }

  /** Replacing all `{{a}}` leaves in place an occurrence of any q that `{{a}}` cannot
      overlap. */
  lemma ReplaceAllKeepsApart(t: string, a: string, v: string, q: string)
    requires NameRun(a) && Apart(a, q) && Contains(t, q)
    ensures Contains(ReplaceAll(t, Token(a), v), q)
  {
    ContainsIff(t, q);
    var j :| OccursAt(t, j, q);
    var pieces := SplitOn(t, Token(a));
    SplitOnJoin(t, Token(a));
    ReplaceAllIsJoin(t, Token(a), v);
    var k := JoinKeepsApart(pieces, a, v, q, j);
    ContainsIff(ReplaceAll(t, Token(a), v), q);
  }

  /** An occurrence of q in `before + {{a}} + rest` lies wholly in before or wholly in
      rest. */
  lemma LocateApart(before: string, a: string, rest: string, q: string, j: int)
    requires Apart(a, q)
    requires OccursAt(before + Token(a) + rest, j, q)
    ensures OccursAt(before, j, q) || OccursAt(rest, j - |before| - |Token(a)|, q)
  {
    var t := before + Token(a) + rest;
    assert t == before + (Token(a) + rest);
    OccursAtRight(before, Token(a) + rest, 0, Token(a));
    assert OccursAt(t, |before|, Token(a));
    if j + |q| <= |before| {
      OccursAtInLeft(before, Token(a) + rest, j, q);
    } else {
      OccursAtInRight(before + Token(a), rest, j, q);
    }
  }

  /** Where an occurrence of q in the pieces joined by `{{a}}` ends up when the pieces
      are joined by v instead. */
  lemma {:induction false} JoinKeepsApart(pieces: seq<string>, a: string, v: string, q: string, j: int)
    returns (k: int)
    requires |pieces| > 0 && Apart(a, q)
    requires OccursAt(Join(pieces, Token(a)), j, q)
    ensures OccursAt(Join(pieces, v), k, q)
    decreases |pieces|
  {
    if |pieces| == 1 {
      k := j;
    } else {
      var first, rest := pieces[0], Join(pieces[1..], Token(a));
      var tail := Join(pieces[1..], v);
      LocateApart(first, a, rest, q, j);
      if OccursAt(first, j, q) {
        OccursAtLeft(first, v + tail, j, q);
        assert first + (v + tail) == Join(pieces, v);
        k := j;
      } else {
        var k' := JoinKeepsApart(pieces[1..], a, v, q, j - |first| - |Token(a)|);
        OccursAtRight(first + v, tail, k', q);
        k := |first + v| + k';
      }
    }
  }

  /** A placeholder written with a space inside the braces, `{{ n }}`. */
  function Spaced(n: string): (r: string)
    ensures |r| == |n| + 6
  {
    "{{ " + n + " }}"
  }

  /** The characters of an occurrence of `{{ n }}` at j. */
  lemma SpacedAt(t: string, j: int, n: string)
    requires NameRun(n) && OccursAt(t, j, Spaced(n))
    ensures t[j] == '{' && t[j + 1] == '{' && t[j + 2] == ' ' && t[j + |n| + 3] == ' '
    ensures t[j + |n| + 4] == '}' && t[j + |n| + 5] == '}'
    ensures t[j + 3..j + |n| + 3] == n
    ensures forall m :: j + 2 <= m < j + |n| + 6 ==> t[m] != '{'
  {
    var sn := Spaced(n);
    assert t[j..j + |sn|] == sn;
    forall m | j <= m < j + |sn| ensures t[m] == sn[m - j] {
      assert t[j..j + |sn|][m - j] == t[m];
    }
    forall m | j + 3 <= m < j + |n| + 3 ensures t[m] == n[m - j - 3] && IsNameChar(t[m]) {
      assert t[m] == sn[m - j] == n[m - j - 3];
    }
  }

  /** `{{a}}` never overlaps a spaced placeholder: the character after its `{{` is a name
      character, never a space or a brace. */
  lemma SpacedApart(a: string, n: string)
    requires NameRun(a) && NameRun(n)
    ensures Apart(a, Spaced(n))
  {
    forall t: string, i: int, j: int | OccursAt(t, i, Token(a)) && OccursAt(t, j, Spaced(n))
      ensures i + |Token(a)| <= j || j + |Spaced(n)| <= i
    {
      TokenAt(t, i, a);
      SpacedAt(t, j, n);
      assert forall m :: i + 2 <= m < i + |a| + 4 ==> t[m] != '{';
    }
  }

  /** A spaced placeholder is a match of the placeholder pattern, and its name is among the
      argument names. */
  lemma SpacedIsArgument(t: string, j: nat, n: string)
    requires NameRun(n) && OccursAt(t, j, Spaced(n))
    ensures n in GetArgumentNames(t)
  {
    SpacedAt(t, j, n);
    assert RegexMatch(t, j, j + 3, j + |n| + 3, j + |n| + 6);
    MatchAtIsTheRegexMatch(t, j, j + 3, j + |n| + 3, j + |n| + 6);
    assert NamedMatchAt(t, j, n);
    ArgumentNamesAreTheOccurringNames(t, n);
  }

  /** One argument of an action: a template parameter and the value given for it. */
  datatype ActionArgument = ActionArgument(parameter: string, value: string)

  /** The card action: the template's name and the arguments. */
  datatype ActionPayload = ActionPayload(payload: string, arguments: seq<ActionArgument>)

  /** The first index at or after i whose argument is for the name. */
  function FindFrom(args: seq<ActionArgument>, name: string, i: nat): (r: Option<nat>)
    ensures r.Some? ==> i <= r.value < |args| && args[r.value].parameter == name
    ensures r.Some? ==> forall l :: i <= l < r.value ==> args[l].parameter != name
    ensures r.None? ==> forall l :: i <= l < |args| ==> args[l].parameter != name
    decreases |args| - i
  {
    if i >= |args| then None
    else if args[i].parameter == name then Some(i)
    else FindFrom(args, name, i + 1)
  }

  /** `arguments.find(a => a.parameter == name)`: the first argument for the name. */
  function FindArgument(args: seq<ActionArgument>, name: string): (r: Option<ActionArgument>)
    ensures r.None? <==> forall k :: 0 <= k < |args| ==> args[k].parameter != name
    ensures r.Some? ==> r.value.parameter == name
    ensures r.Some? ==> exists k :: 0 <= k < |args| && args[k] == r.value && forall l :: 0 <= l < k ==> args[l].parameter != name
  {
    match FindFrom(args, name, 0)
    case None => None
    case Some(k) => Some(args[k])
  }

  /** One pass of the loop: the name's placeholders replaced when it has an argument. */
  function Step(t: string, name: string, args: seq<ActionArgument>, subst: string -> string): string
  {
    match FindArgument(args, name)
    case None => t
    case Some(arg) => ReplaceAll(t, Token(name), subst(arg.value))
  }

  /** The loop over the names, in order. */
  function SubstituteAll(t: string, names: seq<string>, args: seq<ActionArgument>, subst: string -> string): string
    decreases |names|
  {
    if names == [] then t
    else Step(SubstituteAll(t, names[..|names| - 1], args, subst), names[|names| - 1], args, subst)
  }

  lemma SubstituteAllSnoc(t: string, names: seq<string>, args: seq<ActionArgument>, subst: string -> string, i: nat)
    requires i < |names|
    ensures SubstituteAll(t, names[..i + 1], args, subst) == Step(SubstituteAll(t, names[..i], args, subst), names[i], args, subst)
  {
    assert names[..i + 1][..i] == names[..i];
  }

  /** `GetTemplate(name)`: the file `name.json` of the template directory. */
  function GetTemplate(files: map<string, Json>, name: string): (r: Result<Json>)
    ensures r.Success? <==> name + ".json" in files
    ensures r.Success? ==> r.value == files[name + ".json"]
  {
    if name + ".json" in files then Success(files[name + ".json"])
    else Failure("Cannot find module '" + name + ".json'")
  }

  /** What `RenderTemplate` hands to `JSON.parse`: the serialised template with every
      supplied placeholder substituted. */
  function RenderSpec(files: map<string, Json>, action: ActionPayload, subst: string -> string): Result<string>
  {
    match GetTemplate(files, action.payload)
    case Failure(e) => Failure(e)
    case Success(template) =>
      var text := Stringify(template);
      Success(SubstituteAll(text, GetArgumentNames(text), action.arguments, subst))
  }

  method RenderTemplate(files: map<string, Json>, action: ActionPayload, subst: string -> string)
    returns (r: Result<string>)
    ensures r == RenderSpec(files, action, subst)
    ensures r.Failure? <==> action.payload + ".json" !in files
  {
    var template := GetTemplate(files, action.payload);
    if template.Failure? {
      return Failure(template.error);
    }
    var templateString := Stringify(template.value);
    var argumentNames := GetArgumentNames(templateString);
    ghost var text := templateString;
    var i := 0;
    while i < |argumentNames|
      invariant 0 <= i <= |argumentNames|
      invariant templateString == SubstituteAll(text, argumentNames[..i], action.arguments, subst)
    {
      var argumentName := argumentNames[i];
      ghost var prev := templateString;
      var actionArgument := FindArgument(action.arguments, argumentName);
      if actionArgument.Some? {
        var value := subst(actionArgument.value.value);
        templateString := ReplaceAll(templateString, Token(argumentName), value);
      }
      assert templateString == Step(prev, argumentName, action.arguments, subst);
      SubstituteAllSnoc(text, argumentNames, action.arguments, subst, i);
      i := i + 1;
    }
    assert argumentNames[..i] == argumentNames;
    return Success(templateString);
  }

  /** A placeholder whose name has no argument survives every pass of the loop. */
  lemma SubstituteKeepsUnsupplied(t: string, names: seq<string>, args: seq<ActionArgument>,
                                  subst: string -> string, n: string)
    requires forall k :: 0 <= k < |names| ==> NameRun(names[k])
    requires NameRun(n) && FindArgument(args, n).None? && Contains(t, Token(n))
    ensures Contains(SubstituteAll(t, names, args, subst), Token(n))
  {
    forall k | 0 <= k < |names| && FindArgument(args, names[k]).Some?
      ensures Apart(names[k], Token(n))
    {
      TokensApart(names[k], n);
    }
    SubstituteKeepsApart(t, names, args, subst, Token(n));
  }

  /** An occurrence of q survives every pass of the loop when no supplied name's
      placeholder can overlap it. */
  lemma {:induction false} SubstituteKeepsApart(t: string, names: seq<string>, args: seq<ActionArgument>,
                                               subst: string -> string, q: string)
    requires forall k :: 0 <= k < |names| ==> NameRun(names[k])
    requires forall k :: 0 <= k < |names| && FindArgument(args, names[k]).Some? ==> Apart(names[k], q)
    requires Contains(t, q)
    ensures Contains(SubstituteAll(t, names, args, subst), q)
    decreases |names|
  {
    if names != [] {
      var init, last := names[..|names| - 1], names[|names| - 1];
      SubstituteKeepsApart(t, init, args, subst, q);
      match FindArgument(args, last)
      case None =>
      case Some(arg) =>
        ReplaceAllKeepsApart(SubstituteAll(t, init, args, subst), last, subst(arg.value), q);
    }
  }

  /** The pass for a name with an argument replaces every `{{name}}` of the text as it
      stands by the substituted value of the first argument for that name; the pass for a
      name without one changes nothing. */
  lemma SubstitutePass(t: string, names: seq<string>, args: seq<ActionArgument>, subst: string -> string, k: nat)
    requires k < |names|
    ensures var before, after := SubstituteAll(t, names[..k], args, subst), SubstituteAll(t, names[..k + 1], args, subst);
            var pieces := SplitOn(before, Token(names[k]));
            && before == Join(pieces, Token(names[k]))
            && (FindArgument(args, names[k]).None? ==> after == before)
            && (FindArgument(args, names[k]).Some? ==> after == Join(pieces, subst(FindArgument(args, names[k]).value.value)))
  {
    assert names[..k + 1][..k] == names[..k];
    var before := SubstituteAll(t, names[..k], args, subst);
    SplitOnJoin(before, Token(names[k]));
    match FindArgument(args, names[k])
    case None =>
    case Some(arg) =>
      ReplaceAllIsJoin(before, Token(names[k]), subst(arg.value));
  }

  /** A placeholder of the template whose name no argument supplies is left literally in
      what is parsed. */
  lemma RenderKeepsUnsuppliedPlaceholders(files: map<string, Json>, action: ActionPayload,
                                          subst: string -> string, n: string)
    requires action.payload + ".json" in files
    requires NameRun(n) && FindArgument(action.arguments, n).None?
    requires Contains(Stringify(files[action.payload + ".json"]), Token(n))
    ensures RenderSpec(files, action, subst).Success?
    ensures Contains(RenderSpec(files, action, subst).value, Token(n))
  {
    var text := Stringify(files[action.payload + ".json"]);
    var names := GetArgumentNames(text);
    ArgumentNamesAreNameRuns(text);
    SubstituteKeepsUnsupplied(text, names, action.arguments, subst, n);
  }

  /** A placeholder written with spaces, `{{ n }}`, yields its name, but the loop only
      replaces `{{n}}`: the spaced placeholder is left literally in what is parsed,
      whether an argument supplies the name or not. */
  lemma RenderKeepsSpacedPlaceholders(files: map<string, Json>, action: ActionPayload,
                                      subst: string -> string, n: string)
    requires action.payload + ".json" in files
    requires NameRun(n) && Contains(Stringify(files[action.payload + ".json"]), Spaced(n))
    ensures n in GetArgumentNames(Stringify(files[action.payload + ".json"]))
    ensures RenderSpec(files, action, subst).Success?
    ensures Contains(RenderSpec(files, action, subst).value, Spaced(n))
  {
    var text := Stringify(files[action.payload + ".json"]);
    var names := GetArgumentNames(text);
    ContainsIff(text, Spaced(n));
    var j: nat :| OccursAt(text, j, Spaced(n));
    SpacedIsArgument(text, j, n);
    ArgumentNamesAreNameRuns(text);
    forall k | 0 <= k < |names| ensures Apart(names[k], Spaced(n)) {
      SpacedApart(names[k], n);
    }
    SubstituteKeepsApart(text, names, action.arguments, subst, Spaced(n));
  }
}
