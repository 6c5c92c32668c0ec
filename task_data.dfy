/**
  The decoded request body. A task is whatever json.loads produced: the handlers call
  `.get`, iterate and `.lower()` on its parts, and Python raises when a part has the wrong
  type. Those exceptions are modelled as `Err` values carrying str(e).
*/
module TaskData {
  import opened Wrappers
  import opened Text

  /** A decoded JSON value. An object holds a Python dict's items in order (distinct keys). */
  datatype Json =
    | JNull
    | JBool(b: bool)
    | JInt(i: int)
    | JFloat(f: real)
    | JStr(s: string)
    | JArr(items: seq<Json>)
    | JObj(fields: seq<(string, Json)>)

  /** type(v).__name__ */
  function TypeName(j: Json): string {
    match j
    case JNull => "NoneType"
    case JBool(_) => "bool"
    case JInt(_) => "int"
    case JFloat(_) => "float"
    case JStr(_) => "str"
    case JArr(_) => "list"
    case JObj(_) => "dict"
  }

  /** d.get(key, default) */
  function Lookup(fields: seq<(string, Json)>, key: string, default: Json): Json {
    if |fields| == 0 then default
    else if fields[0].0 == key then fields[0].1
    else Lookup(fields[1..], key, default)
  }

  /** The value of the first field with the key, the default when no field has it. */
  lemma {:induction false} LookupFirst(fields: seq<(string, Json)>, key: string, default: Json)
    ensures (exists i :: 0 <= i < |fields| && fields[i].0 == key) ==>
              exists i :: 0 <= i < |fields| && fields[i] == (key, Lookup(fields, key, default))
                          && forall j :: 0 <= j < i ==> fields[j].0 != key
    ensures (forall i :: 0 <= i < |fields| ==> fields[i].0 != key) ==> Lookup(fields, key, default) == default
  {
    if |fields| > 0 && fields[0].0 != key {
      LookupFirst(fields[1..], key, default);
      assert forall i :: 1 <= i < |fields| ==> fields[1..][i - 1] == fields[i];
      if exists i :: 0 <= i < |fields| && fields[i].0 == key {
        var i :| 0 <= i < |fields| && fields[i].0 == key;
        assert fields[1..][i - 1].0 == key;
        var i' :| 0 <= i' < |fields| - 1 && fields[1..][i'] == (key, Lookup(fields, key, default))
                  && forall j :: 0 <= j < i' ==> fields[1..][j].0 != key;
        assert fields[i' + 1] == (key, Lookup(fields, key, default));
      }
    }
  }

/** `for x in v`: a list yields its items, a str its characters, a dict its keys. */
  function Iterate(j: Json): (r: Result<seq<Json>>)
    ensures r.Err? <==> (j.JNull? || j.JBool? || j.JInt? || j.JFloat?)
    ensures r.Err? ==> r.message == "'" + TypeName(j) + "' object is not iterable"
    ensures j.JArr? ==> r == Ok(j.items)
  {
    match j
    case JArr(items) => Ok(items)
    case JStr(s) => Ok(seq(|s|, i requires 0 <= i < |s| => JStr([s[i]])))
    case JObj(fields) => Ok(seq(|fields|, i requires 0 <= i < |fields| => JStr(fields[i].0)))
    case _ => Err("'" + TypeName(j) + "' object is not iterable")
  }

  /** v.lower() */
  function LowerOf(j: Json): (r: Result<string>)
    ensures r.Ok? <==> j.JStr?
    ensures j.JStr? ==> r.value == Lower(j.s)
    ensures r.Err? ==> r.message == "'" + TypeName(j) + "' object has no attribute 'lower'"
  {
    match j
    case JStr(s) => Ok(Lower(s))
    case _ => Err("'" + TypeName(j) + "' object has no attribute 'lower'")
  }

  /** `bool(v)` */
  predicate JsonTruthy(j: Json) {
    match j
    case JNull => false
    case JBool(b) => b
    case JInt(i) => i != 0
    case JFloat(f) => f != 0.0
    case JStr(s) => s != ""
    case JArr(items) => items != []
    case JObj(fields) => fields != []
  }

  /** A value appended to a result list: an int, a float or a str. */
  datatype Answer = AInt(n: int) | AReal(x: real) | AStr(s: string)

  /** An answer chosen when the lower-cased question contains any of the keywords. */
  datatype Rule = Rule(keywords: seq<string>, answer: Answer)

  predicate Fires(rule: Rule, q: string) {
    exists k :: 0 <= k < |rule.keywords| && Contains(q, rule.keywords[k])
  }

  /** An if/elif chain: the answer of the first rule that fires, else the default. */
  function FirstRule(rules: seq<Rule>, q: string, default: Answer): (r: Answer)
    ensures (exists i :: 0 <= i < |rules| && Fires(rules[i], q)) ==>
              exists i :: 0 <= i < |rules| && Fires(rules[i], q) && r == rules[i].answer
                          && forall j :: 0 <= j < i ==> !Fires(rules[j], q)
    ensures (forall i :: 0 <= i < |rules| ==> !Fires(rules[i], q)) ==> r == default
  {
    if |rules| == 0 then default
    else if Fires(rules[0], q) then rules[0].answer
    else
      var r := FirstRule(rules[1..], q, default);
      assert forall i :: 1 <= i < |rules| ==> rules[1..][i - 1] == rules[i];
      r
  }

  /** The lower-cased questions, or the exception the first non-text question raises. */
  function LowerAll(qs: seq<Json>): (r: Result<seq<string>>)
    ensures r.Ok? ==> |r.value| == |qs|
  {
    if |qs| == 0 then Ok([])
    else
      match LowerAll(qs[..|qs| - 1])
      case Err(m) => Err(m)
      case Ok(ls) =>
        match LowerOf(qs[|qs| - 1])
        case Err(m) => Err(m)
        case Ok(l) => Ok(ls + [l])
  }

  /**
    Every question is lower-cased when all are strings; otherwise the error is the one the
    first non-string raises.
  */
  lemma {:induction false} LowerAllLowersEach(qs: seq<Json>)
    ensures var r := LowerAll(qs);
      && (r.Ok? <==> forall i :: 0 <= i < |qs| ==> qs[i].JStr?)
      && (r.Ok? ==> forall i :: 0 <= i < |qs| ==> r.value[i] == Lower(qs[i].s))
      && (r.Err? ==> exists i :: 0 <= i < |qs| && !qs[i].JStr? && r == Err(LowerOf(qs[i]).message)
                                  && forall j :: 0 <= j < i ==> qs[j].JStr?)
  {
    if |qs| > 0 {
      var init := qs[..|qs| - 1];
      assert forall i :: 0 <= i < |init| ==> init[i] == qs[i];
      LowerAllLowersEach(init);
    }
  }

  lemma LowerAllStep(qs: seq<Json>, i: nat)
    requires i < |qs|
    ensures LowerAll(qs[..i + 1]) ==
      match LowerAll(qs[..i])
      case Err(m) => Err(m)
      case Ok(ls) => match LowerOf(qs[i]) case Err(m) => Err(m) case Ok(l) => Ok(ls + [l])
  {
    assert qs[..i + 1][..i] == qs[..i];
  }
}
