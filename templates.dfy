/** The template catalogue of `TemplateProvider`: the variables a card template uses
    (`GetVarNames`, `GetTemplateVariables`), their merge into one entry per key
    (`UniqueTemplateVariables`), the template names of a directory listing
    (`GetTemplatesNames`) and the catalogue with its submit-item validation
    (`GetTemplates`). The static `hasSumbitItem` flag is a boolean passed in and out. */
module Templates {
  import opened Wrappers
  import opened Strings
  import opened Seqs
  import opened Json
  import opened Mustache
  import Render

  /** A variable of a template: a placeholder name and the `type` of the object it was
      found in, if that object declares one. */
  datatype TemplateVariable = TemplateVariable(key: string, varType: Option<string>)

  /** `template['type']`: a string `type` property; any other value reads as absent. */
  function DeclaredType(t: Json): Option<string>
  {
    match Property(t, "type")
    case Some(JStr(s)) => Some(s)
    case _ => None
  }

  /** `template.data && template.data.submit`, for a value that is not `null`. */
  predicate SubmitsHere(t: Json)
  {
    match Property(t, "data")
    case Some(d) => JsTruthy(d) && (match Property(d, "submit") case Some(x) => JsTruthy(x) case None => false)
    case None => false
  }

  /** The placeholder names of one member: a member that is not object-typed is
      serialised and scanned; an object-typed one contributes nothing here. */
  function MemberNames(v: Json): seq<string>
  {
    if IsObjectTyped(v) then [] else ScanNames(Stringify(v))
  }

  /** What `GetVarNames(template)` returns. */
  function VarNames(t: Json): seq<string>
  {
    ConcatMap(Members(t), MemberNames)
  }

  method GetVarNames(t: Json) returns (mustaches: seq<string>)
    ensures mustaches == VarNames(t)
  {
    var members := Members(t);
    mustaches := [];
    var i := 0;
    while i < |members|
      invariant 0 <= i <= |members|
      invariant mustaches == ConcatMap(members[..i], MemberNames)
    {
      if !IsObjectTyped(members[i]) {
        var searchStr := Stringify(members[i]);
        var results := ScanNames(searchStr);
        mustaches := mustaches + results;
      }
      assert members[..i + 1][..i] == members[..i];
      i := i + 1;
    }
    assert members[..i] == members;
  }

  /** A name is collected from a list of members exactly when it is a placeholder name
      in the serialisation of one of them that is not object-typed. */
  lemma MemberNamesIff(ms: seq<Json>, n: string)
    ensures n in ConcatMap(ms, MemberNames) <==>
            exists i :: 0 <= i < |ms| && !IsObjectTyped(ms[i]) && n in ScanNames(Stringify(ms[i]))
  {
    if n in ConcatMap(ms, MemberNames) {
      var i := ConcatMapFrom(ms, MemberNames, n);
    }
    forall i | 0 <= i < |ms| && !IsObjectTyped(ms[i]) && n in ScanNames(Stringify(ms[i]))
      ensures n in ConcatMap(ms, MemberNames)
    {
      ConcatMapCollects(ms, MemberNames, i, n);
    }
  }

  /** A string yields no names: each of its indices holds one character, and the
      serialisation of one character is too short for a placeholder or holds no brace. */
  lemma {:induction false} StringHasNoVariables(s: string)
    ensures VarNames(JStr(s)) == []
  {
    var ms := Members(JStr(s));
    forall i | 0 <= i < |ms| ensures MemberNames(ms[i]) == [] {
      var q := Stringify(JStr([s[i]]));
      OneCharQuote(s[i]);
      NamesFromScan(q, 0);
      if |q| < 5 {
        ScanNeedsLength(q, 0);
      } else {
        ScanNeedsOpening(q, 0);
      }
    }
    ConcatMapEmpty(ms, MemberNames);
  }

  /** The names as variables typed by a declared type. */
  function Typed(names: seq<string>, ty: Option<string>): (r: seq<TemplateVariable>)
    ensures |r| == |names| && forall i :: 0 <= i < |r| ==> r[i] == TemplateVariable(names[i], ty)
  {
    seq(|names|, i requires 0 <= i < |names| => TemplateVariable(names[i], ty))
  }

  /** The variables and the submit flag one walk collects. */
  datatype Walked = Walked(vars: seq<TemplateVariable>, submit: bool)

  function Combine(x: Walked, y: Walked): Walked
  {
    Walked(x.vars + y.vars, x.submit || y.submit)
  }

  /** What a visited value contributes itself: the flag when it has a truthy
      `data.submit`, and its own names typed by its own `type`. */
  function Own(t: Json): Walked
  {
    Walked(OwnVars(t), SubmitsHere(t))
  }

  /** The variables of t's own members, typed by t's declared type. */
  function OwnVars(t: Json): seq<TemplateVariable>
  {
    Typed(VarNames(t), DeclaredType(t))
  }

  /** The error reading `template.data` raises when template is `null`. */
  const NullData := "TypeError: Cannot read properties of null (reading 'data')"

  /** The two readings of a failure-free concatenation. */
  function Append(x: Result<Walked>, y: Result<Walked>): (r: Result<Walked>)
    ensures r.Success? <==> x.Success? && y.Success?
  {
    match x
    case Failure(e) => Failure(e)
    case Success(a) =>
      match y
      case Failure(e) => Failure(e)
      case Success(b) => Success(Combine(a, b))
  }

  /** `GetTemplateVariables(template)`. With `skipNull` false this is the code as
      written, which reads `template.data` of a `null` member and fails; with `skipNull`
      true a `null` is skipped, as the rest of the model assumes. */
  function Walk(t: Json, skipNull: bool): (r: Result<Walked>)
    ensures skipNull ==> r.Success?
    decreases t, 2
  {
    if t.JNull? then (if skipNull then Success(Walked([], false)) else Failure(NullData))
    else
      match t
      case JObj(fields) => Append(Success(Own(t)), WalkFields(fields, skipNull))
      case JArr(items) => Append(Success(Own(t)), WalkSeq(items, skipNull, true))
      case _ => Success(Own(t))
  }

  /** `for (let i in template)` over an object's members. */
  function WalkFields(fields: seq<Field>, skipNull: bool): (r: Result<Walked>)
    ensures skipNull ==> r.Success?
    decreases fields
  {
    if fields == [] then Success(Walked([], false))
    else Append(WalkFields(fields[..|fields| - 1], skipNull), WalkMember(fields[|fields| - 1].value, skipNull))
  }

  /** One member: an array's items are walked one by one, any other object-typed value
      is walked itself, and nothing else is visited. */
  function WalkMember(v: Json, skipNull: bool): (r: Result<Walked>)
    ensures skipNull ==> r.Success?
    decreases v, 3
  {
    if v.JArr? then WalkSeq(v.items, skipNull, false)
    else if IsObjectTyped(v) then Walk(v, skipNull)
    else Success(Walked([], false))
  }

  /** A sequence of values walked in order: as the members of an array when `members`,
      otherwise as the items of an array member. */
  function WalkSeq(xs: seq<Json>, skipNull: bool, members: bool): (r: Result<Walked>)
    ensures skipNull ==> r.Success?
    decreases xs
  {
    if xs == [] then Success(Walked([], false))
    else
      var last := xs[|xs| - 1];
      Append(WalkSeq(xs[..|xs| - 1], skipNull, members), if members then WalkMember(last, skipNull) else Walk(last, skipNull))
  }

  /** The values the walk reads `template.data` of, in the order it visits them. */
  function Visited(t: Json): seq<Json>
    decreases t, 2
  {
    [t] + match t
      case JObj(fields) => VisitedFields(fields)
      case JArr(items) => VisitedSeq(items, true)
      case _ => []
  }

  function VisitedFields(fields: seq<Field>): seq<Json>
    decreases fields
  {
    if fields == [] then []
    else VisitedFields(fields[..|fields| - 1]) + VisitedMember(fields[|fields| - 1].value)
  }

  function VisitedMember(v: Json): seq<Json>
    decreases v, 3
  {
    if v.JArr? then VisitedSeq(v.items, false)
    else if IsObjectTyped(v) then Visited(v)
    else []
  }

  function VisitedSeq(xs: seq<Json>, members: bool): seq<Json>
    decreases xs
  {
    if xs == [] then []
    else
      var last := xs[|xs| - 1];
      VisitedSeq(xs[..|xs| - 1], members) + (if members then VisitedMember(last) else Visited(last))
  }

  /** The contributions of a sequence of visited values, in order. */
  function OwnAll(ns: seq<Json>): Walked
  {
    Walked(ConcatMap(ns, OwnVars), AnyOf(ns, SubmitsHere))
  }

  lemma OwnAllAppend(a: seq<Json>, b: seq<Json>)
    ensures OwnAll(a + b) == Combine(OwnAll(a), OwnAll(b))
  {
    ConcatMapAppend(a, b, OwnVars);
    AnyOfAppend(a, b, SubmitsHere);
  }

  /** `null` contributes nothing. */
  lemma OwnNull()
    ensures Own(JNull) == Walked([], false)
  {
    assert Members(JNull) == [];
  }

  /** What the as-written walk does: it fails exactly when one of the values it visits
      is `null`; otherwise it and the corrected walk collect the contributions of the
      visited values in visiting order. */
  ghost predicate WalkAgrees(r: Result<Walked>, corrected: Result<Walked>, visited: seq<Json>)
  {
    && corrected == Success(OwnAll(visited))
    && (r.Failure? <==> JNull in visited)
    && (r.Success? ==> r == corrected)
  }

  lemma {:induction false} WalkVisits(t: Json)
    ensures WalkAgrees(Walk(t, false), Walk(t, true), Visited(t))
    decreases t, 2
  {
    if t.JNull? {
      OwnNull();
      ConcatMapOne(t, OwnVars);
      AnyOfOne(t, SubmitsHere);
    } else if t.JObj? {
      WalkObjectVisits(t);
    } else if t.JArr? {
      WalkArrayVisits(t);
    } else {
      var none := Success(Walked([], false));
      AgreesPrepend(t, none, none, []);
      assert Own(t).vars + [] == Own(t).vars;
      assert Append(Success(Own(t)), none) == Success(Own(t));
      assert Visited(t) == [t] + [];
    }
  }

  lemma {:induction false} WalkObjectVisits(t: Json)
    requires t.JObj?
    ensures WalkAgrees(Walk(t, false), Walk(t, true), Visited(t))
    decreases t, 1
  {
    WalkFieldsVisit(t.fields);
    AgreesPrepend(t, WalkFields(t.fields, false), WalkFields(t.fields, true), VisitedFields(t.fields));
    assert Visited(t) == [t] + VisitedFields(t.fields);
  }

  lemma {:induction false} WalkArrayVisits(t: Json)
    requires t.JArr?
    ensures WalkAgrees(Walk(t, false), Walk(t, true), Visited(t))
    decreases t, 1
  {
    WalkSeqVisits(t.items, true);
    AgreesPrepend(t, WalkSeq(t.items, false, true), WalkSeq(t.items, true, true), VisitedSeq(t.items, true));
    assert Visited(t) == [t] + VisitedSeq(t.items, true);
  }

  /** A value other than `null` visited before a walk that agrees. */
  lemma AgreesPrepend(t: Json, r: Result<Walked>, corrected: Result<Walked>, visited: seq<Json>)
    requires !t.JNull? && WalkAgrees(r, corrected, visited)
    ensures WalkAgrees(Append(Success(Own(t)), r), Append(Success(Own(t)), corrected), [t] + visited)
  {
    OwnAllAppend([t], visited);
    ConcatMapOne(t, OwnVars);
    AnyOfOne(t, SubmitsHere);
  }

  lemma {:induction false} WalkFieldsVisit(fields: seq<Field>)
    ensures WalkAgrees(WalkFields(fields, false), WalkFields(fields, true), VisitedFields(fields))
    decreases fields
  {
    if fields != [] {
      var init, last := fields[..|fields| - 1], fields[|fields| - 1].value;
      WalkFieldsVisit(init);
      WalkMemberVisits(last);
      OwnAllAppend(VisitedFields(init), VisitedMember(last));
    }
  }

  lemma {:induction false} WalkMemberVisits(v: Json)
    ensures WalkAgrees(WalkMember(v, false), WalkMember(v, true), VisitedMember(v))
    decreases v, 3
  {
    if v.JArr? {
      WalkSeqVisits(v.items, false);
    } else if IsObjectTyped(v) {
      WalkVisits(v);
    }
  }

  lemma {:induction false} WalkSeqVisits(xs: seq<Json>, members: bool)
    ensures WalkAgrees(WalkSeq(xs, false, members), WalkSeq(xs, true, members), VisitedSeq(xs, members))
    decreases xs
  {
    if xs != [] {
      var init, last := xs[..|xs| - 1], xs[|xs| - 1];
      WalkSeqVisits(init, members);
      if members {
        WalkMemberVisits(last);
        OwnAllAppend(VisitedSeq(init, members), VisitedMember(last));
      } else {
        WalkVisits(last);
        OwnAllAppend(VisitedSeq(init, members), Visited(last));
      }
    }
  }

  /** A visited value's own variable: a name of its own members, with its own `type`. */
  predicate Declares(n: Json, tv: TemplateVariable)
  {
    tv.key in VarNames(n) && tv.varType == DeclaredType(n)
  }

  lemma TypedIff(names: seq<string>, ty: Option<string>, tv: TemplateVariable)
    ensures tv in Typed(names, ty) <==> tv.key in names && tv.varType == ty
  {
    var r := Typed(names, ty);
    if tv in r {
      var k :| 0 <= k < |r| && r[k] == tv;
    }
    if tv.key in names && tv.varType == ty {
      var k :| 0 <= k < |names| && names[k] == tv.key;
      assert r[k] == tv;
    }
  }

  /** Some value of ns has a truthy `data.submit`. */
  ghost predicate SomeSubmits(ns: seq<Json>)
  {
    exists i :: 0 <= i < |ns| && SubmitsHere(ns[i])
  }

  /** Some value of ns has tv among its own variables. */
  ghost predicate SomeDeclares(ns: seq<Json>, tv: TemplateVariable)
  {
    exists i :: 0 <= i < |ns| && Declares(ns[i], tv)
  }

  /** The flag of a sequence of visited values: set by one of them. */
  lemma OwnAllSubmit(ns: seq<Json>)
    ensures OwnAll(ns).submit <==> SomeSubmits(ns)
  {
    AnyOfIff(ns, SubmitsHere);
  }

  lemma OwnAllVars(ns: seq<Json>, tv: TemplateVariable)
    ensures tv in OwnAll(ns).vars <==> SomeDeclares(ns, tv)
  {
    if tv in OwnAll(ns).vars {
      var i := ConcatMapFrom(ns, OwnVars, tv);
      TypedIff(VarNames(ns[i]), DeclaredType(ns[i]), tv);
      assert Declares(ns[i], tv);
    }
    if SomeDeclares(ns, tv) {
      var i :| 0 <= i < |ns| && Declares(ns[i], tv);
      TypedIff(VarNames(ns[i]), DeclaredType(ns[i]), tv);
      ConcatMapCollects(ns, OwnVars, i, tv);
    }
  }

  /** The corrected walk sets the flag exactly when some visited value has a truthy
      `data.submit`. */
  lemma WalkSubmitIff(t: Json)
    ensures Walk(t, true).value.submit <==> SomeSubmits(Visited(t))
  {
    WalkVisits(t);
    OwnAllSubmit(Visited(t));
  }

  /** Every collected variable is a name of some visited value's own members, typed by
      that value's own `type`; and every such pair is collected. */
  lemma WalkVariablesIff(t: Json, tv: TemplateVariable)
    ensures tv in Walk(t, true).value.vars <==> SomeDeclares(Visited(t), tv)
  {
    WalkVisits(t);
    OwnAllVars(Visited(t), tv);
  }

  /** The code as written fails exactly on templates in which it visits a `null`. */
  lemma WalkAsWrittenFailsOnVisitedNull(t: Json)
    ensures Walk(t, false).Failure? <==> JNull in Visited(t)
    ensures Walk(t, false).Success? ==> Walk(t, false) == Walk(t, true)
  {
    WalkVisits(t);
  }

  /** A concrete template the code as written rejects: an object with a `null` member. */
  lemma WalkAsWrittenFailsOnNullMember()
    ensures Walk(JObj([Field("body", JNull)]), false) == Failure(NullData)
    ensures Walk(JObj([Field("body", JNull)]), true).Success?
  {
    var fields := [Field("body", JNull)];
    assert fields[..0] == [];
    assert WalkMember(JNull, false) == Failure(NullData);
  }

  /** The corrected `GetTemplateVariables`, with the static flag passed in and out: it
      is only ever set, never cleared. */
  method GetTemplateVariables(t: Json, hasSubmitItem: bool) returns (tvs: seq<TemplateVariable>, flag: bool)
    ensures tvs == Walk(t, true).value.vars
    ensures flag == (hasSubmitItem || Walk(t, true).value.submit)
    decreases t, 2
  {
    tvs := [];
    flag := hasSubmitItem;
    if t.JNull? {
      return;
    }
    if SubmitsHere(t) {
      flag := true;
    }
    var vars := GetVarNames(t);
    tvs := TypeVariables(vars, DeclaredType(t));
    match t
    case JObj(fields) =>
      tvs, flag := VisitFields(fields, tvs, flag);
    case JArr(items) =>
      tvs, flag := VisitArray(items, tvs, flag);
    case _ =>
  }

  /** `tvs.push({ key: mustache, type: template['type'] })` for each name. */
  method TypeVariables(vars: seq<string>, ty: Option<string>) returns (tvs: seq<TemplateVariable>)
    ensures tvs == Typed(vars, ty)
  {
    tvs := [];
    var i := 0;
    while i < |vars|
      invariant 0 <= i <= |vars|
      invariant tvs == Typed(vars[..i], ty)
    {
      tvs := tvs + [TemplateVariable(vars[i], ty)];
      i := i + 1;
    }
    assert vars[..i] == vars;
  }

  /** `for (let i in template)` over an object's members. */
  method VisitFields(fields: seq<Field>, tvs0: seq<TemplateVariable>, flag0: bool) returns (tvs: seq<TemplateVariable>, flag: bool)
    ensures tvs == tvs0 + WalkFields(fields, true).value.vars
    ensures flag == (flag0 || WalkFields(fields, true).value.submit)
    decreases fields
  {
    tvs, flag := tvs0, flag0;
    var k := 0;
    while k < |fields|
      invariant 0 <= k <= |fields|
      invariant tvs == tvs0 + WalkFields(fields[..k], true).value.vars
      invariant flag == (flag0 || WalkFields(fields[..k], true).value.submit)
    {
      assert fields[..k + 1][..k] == fields[..k];
      assert WalkFields(fields[..k + 1], true).value ==
             Combine(WalkFields(fields[..k], true).value, WalkMember(fields[k].value, true).value);
      var a, b := WalkFields(fields[..k], true).value.vars, WalkMember(fields[k].value, true).value.vars;
      tvs, flag := VisitMember(fields[k].value, tvs, flag);
      AppendAssoc(tvs0, a, b);
      k := k + 1;
    }
    assert fields[..k] == fields;
  }

  /** `for (let i in template)` over an array's members. */
  method VisitArray(items: seq<Json>, tvs0: seq<TemplateVariable>, flag0: bool) returns (tvs: seq<TemplateVariable>, flag: bool)
    ensures tvs == tvs0 + WalkSeq(items, true, true).value.vars
    ensures flag == (flag0 || WalkSeq(items, true, true).value.submit)
    decreases items
  {
    tvs, flag := tvs0, flag0;
    var k := 0;
    while k < |items|
      invariant 0 <= k <= |items|
      invariant tvs == tvs0 + WalkSeq(items[..k], true, true).value.vars
      invariant flag == (flag0 || WalkSeq(items[..k], true, true).value.submit)
    {
      assert items[..k + 1][..k] == items[..k];
      assert WalkSeq(items[..k + 1], true, true).value ==
             Combine(WalkSeq(items[..k], true, true).value, WalkMember(items[k], true).value);
      var a, b := WalkSeq(items[..k], true, true).value.vars, WalkMember(items[k], true).value.vars;
      tvs, flag := VisitMember(items[k], tvs, flag);
      AppendAssoc(tvs0, a, b);
      k := k + 1;
    }
    assert items[..k] == items;
  }

  /** The body of the member loop: an array member's items are walked one by one
      (`for (let item of template[i])`), any other object-typed member is walked itself. */
  method VisitMember(v: Json, tvs0: seq<TemplateVariable>, flag0: bool) returns (tvs: seq<TemplateVariable>, flag: bool)
    ensures tvs == tvs0 + WalkMember(v, true).value.vars
    ensures flag == (flag0 || WalkMember(v, true).value.submit)
    decreases v, 3
  {
    tvs, flag := tvs0, flag0;
    if v.JArr? {
      tvs, flag := VisitItems(v.items, tvs, flag);
    } else if IsObjectTyped(v) {
      var sub, f := GetTemplateVariables(v, flag);
      tvs := tvs + sub;
      flag := f;
    }
  }

  method VisitItems(items: seq<Json>, tvs0: seq<TemplateVariable>, flag0: bool) returns (tvs: seq<TemplateVariable>, flag: bool)
    ensures tvs == tvs0 + WalkSeq(items, true, false).value.vars
    ensures flag == (flag0 || WalkSeq(items, true, false).value.submit)
    decreases items
  {
    tvs, flag := tvs0, flag0;
    var j := 0;
    while j < |items|
      invariant 0 <= j <= |items|
      invariant tvs == tvs0 + WalkSeq(items[..j], true, false).value.vars
      invariant flag == (flag0 || WalkSeq(items[..j], true, false).value.submit)
    {
      assert items[..j + 1][..j] == items[..j];
      assert WalkSeq(items[..j + 1], true, false).value ==
             Combine(WalkSeq(items[..j], true, false).value, Walk(items[j], true).value);
      var a := WalkSeq(items[..j], true, false).value.vars;
      var sub, f := GetTemplateVariables(items[j], flag);
      AppendAssoc(tvs0, a, sub);
      tvs := tvs + sub;
      flag := f;
      j := j + 1;
    }
    assert items[..j] == items;
  }

  /** How a later type merges into an existing entry: on two different non-null types
      the existing one is kept (the conflict is only logged); otherwise
      `existing.type || tv.type`. */
  function Merge(existing: Option<string>, incoming: Option<string>): Option<string>
  {
    if existing.Some? && incoming.Some? && existing != incoming then existing
    else if Truthy(existing) then existing
    else incoming
  }

  /** `unique.find(i => i.key == key)`, as an index. */
  function KeyIndex(unique: seq<TemplateVariable>, key: string): (r: Option<nat>)
    ensures r.Some? ==> r.value < |unique| && unique[r.value].key == key
    ensures r.None? ==> forall i :: 0 <= i < |unique| ==> unique[i].key != key
  {
    if unique == [] then None
    else if unique[0].key == key then Some(0)
    else match KeyIndex(unique[1..], key)
      case None => None
      case Some(i) => Some(i + 1)
  }

  /** The merged list after the variables tvs, in order. */
  function Unique(tvs: seq<TemplateVariable>): seq<TemplateVariable>
  {
    if tvs == [] then []
    else
      var u, tv := Unique(tvs[..|tvs| - 1]), tvs[|tvs| - 1];
      match KeyIndex(u, tv.key)
      case None => u + [tv]
      case Some(k) => u[k := TemplateVariable(u[k].key, Merge(u[k].varType, tv.varType))]
  }

  method UniqueTemplateVariables(t: Json, hasSubmitItem: bool) returns (unique: seq<TemplateVariable>, flag: bool)
    ensures unique == Unique(Walk(t, true).value.vars)
    ensures flag == (hasSubmitItem || Walk(t, true).value.submit)
  {
    var templateVariables;
    templateVariables, flag := GetTemplateVariables(t, hasSubmitItem);
    unique := MergeVariables(templateVariables);
  }

  /** The merging loop of `UniqueTemplateVariables` over the collected variables. */
  method MergeVariables(templateVariables: seq<TemplateVariable>) returns (unique: seq<TemplateVariable>)
    ensures unique == Unique(templateVariables)
  {
    unique := [];
    var i := 0;
    while i < |templateVariables|
      invariant 0 <= i <= |templateVariables|
      invariant unique == Unique(templateVariables[..i])
    {
      var tv := templateVariables[i];
      assert templateVariables[..i + 1][..i] == templateVariables[..i];
      var existing := KeyIndex(unique, tv.key);
      if existing.Some? {
        var e := unique[existing.value];
        if e.varType.Some? && tv.varType.Some? && e.varType != tv.varType {
          // two different types for one key: logged and ignored
        } else {
          unique := unique[existing.value := TemplateVariable(e.key, if Truthy(e.varType) then e.varType else tv.varType)];
        }
      } else {
        unique := unique + [tv];
      }
      i := i + 1;
    }
    assert templateVariables[..i] == templateVariables;
  }

  function Keys(tvs: seq<TemplateVariable>): (r: seq<string>)
    ensures |r| == |tvs| && forall i :: 0 <= i < |tvs| ==> r[i] == tvs[i].key
  {
    seq(|tvs|, i requires 0 <= i < |tvs| => tvs[i].key)
  }

  /** The keys of the merged list are the distinct keys in first-occurrence order. */
  lemma {:induction false} UniqueKeys(tvs: seq<TemplateVariable>)
    ensures Keys(Unique(tvs)) == Dedupe(Keys(tvs))
  {
    if tvs != [] {
      var init, tv := tvs[..|tvs| - 1], tvs[|tvs| - 1];
      UniqueKeys(init);
      KeysSnoc(init, tv);
      assert init + [tv] == tvs;
      DedupeSnoc(Keys(init), tv.key);
      var u := Unique(init);
      KeyIndexFinds(u, tv.key);
      match KeyIndex(u, tv.key)
      case None =>
        KeysSnoc(u, tv);
      case Some(k) =>
        KeysUpdate(u, k, Merge(u[k].varType, tv.varType));
    }
  }

  lemma KeysSnoc(tvs: seq<TemplateVariable>, tv: TemplateVariable)
    ensures Keys(tvs + [tv]) == Keys(tvs) + [tv.key]
  {
  }

  lemma KeysUpdate(u: seq<TemplateVariable>, k: nat, ty: Option<string>)
    requires k < |u|
    ensures Keys(u[k := TemplateVariable(u[k].key, ty)]) == Keys(u)
  {
  }

  /** The lookup finds a key exactly when it is among the keys. */
  lemma KeyIndexFinds(u: seq<TemplateVariable>, key: string)
    ensures KeyIndex(u, key).Some? <==> key in Keys(u)
  {
    if key in Keys(u) {
      var i :| 0 <= i < |u| && Keys(u)[i] == key;
    }
  }

  /** The types given to key in tvs, in order. */
  function TypesFor(tvs: seq<TemplateVariable>, key: string): seq<Option<string>>
  {
    if tvs == [] then []
    else TypesFor(tvs[..|tvs| - 1], key) + (if tvs[|tvs| - 1].key == key then [tvs[|tvs| - 1].varType] else [])
  }

  /** The merge of a key's types, left to right from the first. */
  function MergeAll(ts: seq<Option<string>>): Option<string>
    requires |ts| > 0
  {
    if |ts| == 1 then ts[0] else Merge(MergeAll(ts[..|ts| - 1]), ts[|ts| - 1])
  }

  /** Each merged entry's type is the merge of all the types given to its key. */
  lemma {:induction false} UniqueTypes(tvs: seq<TemplateVariable>, i: nat)
    requires i < |Unique(tvs)|
    ensures |TypesFor(tvs, Unique(tvs)[i].key)| > 0
    ensures Unique(tvs)[i].varType == MergeAll(TypesFor(tvs, Unique(tvs)[i].key))
  {
    var init, tv := tvs[..|tvs| - 1], tvs[|tvs| - 1];
    var u := Unique(init);
    var key := Unique(tvs)[i].key;
    match KeyIndex(u, tv.key)
    case None =>
      if i < |u| {
        UniqueTypes(init, i);
        assert Unique(tvs)[i] == u[i];
        assert TypesFor(tvs, key) == TypesFor(init, key);
      } else {
        assert Unique(tvs)[i] == tv;
        UniqueKeys(init);
        assert key !in Keys(init) by {
          assert forall x :: x in Keys(u) <==> x in Keys(init);
        }
        NoTypesForAbsentKey(init, key);
        assert TypesFor(tvs, key) == [tv.varType];
      }
    case Some(k) =>
      UniqueTypes(init, i);
      if i == k {
        assert TypesFor(tvs, key) == TypesFor(init, key) + [tv.varType];
      } else {
        assert Unique(tvs)[i] == u[i];
        UniqueKeys(init);
        assert Keys(u)[i] != Keys(u)[k];
        assert TypesFor(tvs, key) == TypesFor(init, key);
      }
  }

  lemma {:induction false} NoTypesForAbsentKey(tvs: seq<TemplateVariable>, key: string)
    requires key !in Keys(tvs)
    ensures TypesFor(tvs, key) == []
  {
    if tvs != [] {
      var init := tvs[..|tvs| - 1];
      assert forall x :: x in Keys(init) ==> x in Keys(tvs) by {
        assert forall j :: 0 <= j < |init| ==> Keys(init)[j] == Keys(tvs)[j];
      }
      NoTypesForAbsentKey(init, key);
    }
  }

  /** A key's merged type is its first non-null type when that is not empty: later
      conflicting types are ignored and earlier nulls are filled. When every type is
      null the merge is null. */
  lemma {:induction false} MergeAllFirstType(ts: seq<Option<string>>, m: nat)
    requires m < |ts| && (forall l :: 0 <= l < m ==> ts[l].None?) && Truthy(ts[m])
    ensures MergeAll(ts) == ts[m]
  {
    if |ts| > 1 {
      var init := ts[..|ts| - 1];
      if m < |ts| - 1 {
        MergeAllFirstType(init, m);
      } else {
        MergeAllNone(init);
      }
    }
  }

  lemma {:induction false} MergeAllNone(ts: seq<Option<string>>)
    requires |ts| > 0 && forall l :: 0 <= l < |ts| ==> ts[l].None?
    ensures MergeAll(ts) == None
  {
    if |ts| > 1 {
      MergeAllNone(ts[..|ts| - 1]);
    }
  }

  /** The stem of a file name: `f.slice(0, f.indexOf('.'))`. */
  function TemplateName(f: string): string
  {
    Before(f, ".")
  }

  /** `GetTemplatesNames` on a directory listing: the stems of the `.json` files. */
  function GetTemplatesNames(fileNames: seq<string>): (r: seq<string>)
    ensures forall i :: 0 <= i < |r| ==> !Contains(r[i], ".")
  {
    if fileNames == [] then []
    else
      var last := fileNames[|fileNames| - 1];
      GetTemplatesNames(fileNames[..|fileNames| - 1]) + (if EndsWith(last, ".json") then [TemplateName(last)] else [])
  }

  /** A name is listed exactly when it is the stem of some `.json` file. */
  lemma {:induction false} TemplatesNamesIff(fileNames: seq<string>, n: string)
    ensures n in GetTemplatesNames(fileNames) <==>
            exists i :: 0 <= i < |fileNames| && EndsWith(fileNames[i], ".json") && TemplateName(fileNames[i]) == n
  {
    if fileNames != [] {
      var init := fileNames[..|fileNames| - 1];
      TemplatesNamesIff(init, n);
      assert forall i :: 0 <= i < |init| ==> init[i] == fileNames[i];
    }
  }

  /** A stem without a dot names its own file again: `GetTemplate(stem)` opens
      `stem + ".json"`. */
  lemma TemplateNameRoundTrip(stem: string)
    requires !Contains(stem, ".")
    ensures EndsWith(stem + ".json", ".json") && TemplateName(stem + ".json") == stem
  {
    var f := stem + ".json";
    assert OccursAt(f, |stem|, ".");
    ContainsIff(stem, ".");
    forall j | 0 <= j < |stem|
      ensures !OccursAt(f, j, ".")
    {
      assert !OccursAt(stem, j, ".");
      assert f[j..j + 1] == stem[j..j + 1];
    }
    assert f[|f| - 5..] == ".json";
  }

  /** A catalogue entry. */
  datatype Template = Template(name: string, variables: seq<TemplateVariable>, body: string,
                               validationError: Option<string>)

  const SubmitHint := " does not have an action with a \"submit\" item in the data.  At least on action item must be of the form: \"type\": \"Action.Submit\", \"data\": { \"submit\": \"{SUBMIT PAYLOAD\"}"

  function MissingSubmitMessage(file: string): string
  {
    "Template \"" + file + "\"" + SubmitHint
  }

  /** The entry for one file, with the flag cleared before its walk. */
  function TemplateOf(file: string, content: Json): Template
  {
    var w := Walk(content, true).value;
    Template(file, Unique(w.vars), Stringify(content), if w.submit then None else Some(MissingSubmitMessage(file)))
  }

  /** The first name without a template file. */
  function FirstMissing(names: seq<string>, files: map<string, Json>): (r: Option<nat>)
    ensures r.None? <==> forall i :: 0 <= i < |names| ==> names[i] + ".json" in files
    ensures r.Some? ==> r.value < |names| && names[r.value] + ".json" !in files
    ensures r.Some? ==> forall i :: 0 <= i < r.value ==> names[i] + ".json" in files
  {
    if names == [] then None
    else if names[0] + ".json" !in files then Some(0)
    else match FirstMissing(names[1..], files)
      case None => None
      case Some(i) => Some(i + 1)
  }

  /** Each name with the content of its file, in order. */
  function Contents(names: seq<string>, files: map<string, Json>): (r: seq<(string, Json)>)
    requires forall i :: 0 <= i < |names| ==> names[i] + ".json" in files
    ensures |r| == |names| && forall k :: 0 <= k < |names| ==> r[k] == (names[k], files[names[k] + ".json"])
  {
    seq(|names|, k requires 0 <= k < |names| => (names[k], files[names[k] + ".json"]))
  }

  function EntryOf(file: (string, Json)): Template
  {
    TemplateOf(file.0, file.1)
  }

  /** The entries of names whose files all exist, in order. */
  function Entries(names: seq<string>, files: map<string, Json>): seq<Template>
    requires forall i :: 0 <= i < |names| ==> names[i] + ".json" in files
  {
    Map(Contents(names, files), EntryOf)
  }

  /** The catalogue for the names: the failure of the first name without a file, or
      their entries. */
  function TemplatesFor(names: seq<string>, files: map<string, Json>): Result<seq<Template>>
  {
    match FirstMissing(names, files)
    case Some(i) => Failure(Render.GetTemplate(files, names[i]).error)
    case None => Success(Entries(names, files))
  }

  method GetTemplates(fileNames: seq<string>, files: map<string, Json>) returns (r: Result<seq<Template>>)
    ensures r == TemplatesFor(GetTemplatesNames(fileNames), files)
  {
    var names := GetTemplatesNames(fileNames);
    var templates: seq<Template> := [];
    var i := 0;
    while i < |names|
      invariant 0 <= i <= |names|
      invariant forall k :: 0 <= k < i ==> names[k] + ".json" in files
      invariant templates == Entries(names[..i], files)
    {
      var file := names[i];
      var fileContent := Render.GetTemplate(files, file);
      if fileContent.Failure? {
        assert FirstMissing(names, files) == Some(i);
        return Failure(fileContent.error);
      }
      templates := AppendTemplate(names, files, i, templates, fileContent.value);
      i := i + 1;
    }
    assert names[..i] == names;
    return Success(templates);
  }

  /** One pass of the catalogue loop once the file of names[i] is found. */
  method AppendTemplate(names: seq<string>, files: map<string, Json>, i: nat, templates: seq<Template>, content: Json)
    returns (extended: seq<Template>)
    requires i < |names| && forall k :: 0 <= k <= i ==> names[k] + ".json" in files
    requires content == files[names[i] + ".json"]
    requires templates == Entries(names[..i], files)
    ensures extended == Entries(names[..i + 1], files)
  {
    var template := LoadTemplate(names[i], content);
    extended := templates + [template];
    EntriesSnoc(names, files, i);
  }

  lemma EntriesSnoc(names: seq<string>, files: map<string, Json>, i: nat)
    requires i < |names| && forall k :: 0 <= k <= i ==> names[k] + ".json" in files
    ensures Entries(names[..i + 1], files) == Entries(names[..i], files) + [TemplateOf(names[i], files[names[i] + ".json"])]
  {
    var file := (names[i], files[names[i] + ".json"]);
    assert Contents(names[..i + 1], files) == Contents(names[..i], files) + [file];
    MapSnoc(Contents(names[..i], files), file, EntryOf);
  }

  /** The body of the catalogue loop for one file: the flag is cleared before the walk. */
  method LoadTemplate(file: string, content: Json) returns (template: Template)
    ensures template == TemplateOf(file, content)
  {
    var hasSubmitItem := false;
    var tvs;
    tvs, hasSubmitItem := UniqueTemplateVariables(content, hasSubmitItem);
    var validationError := if hasSubmitItem then None else Some(MissingSubmitMessage(file));
    var templateBody := Stringify(content);
    template := Template(file, tvs, templateBody, validationError);
  }

  /** An entry has no validation error exactly when some value its walk visits has a
      truthy `data.submit`. */
  lemma ValidationErrorIff(file: string, content: Json)
    ensures TemplateOf(file, content).validationError.None? <==> SomeSubmits(Visited(content))
  {
    WalkSubmitIff(content);
  }
}
