/**
 * `RequestValidator` of testovoe1.php: an ordered table of rules over request
 * fields; each ruled field is sanitised with `trim(htmlspecialchars(...))`,
 * written back into the request, and checked; the first failing field ends
 * the validation with an error that names it.
 */
module RequestValidator {
  import opened Wrappers
  import opened PhpStrings
  import opened PhpArrays

  /** The constraint tags a rule may carry. */
  datatype Tag = Required | StringTag

  /** The rule for one field. */
  datatype Rule = Rule(field: string, tags: set<Tag>)

  /** Why a request was rejected; `Message` gives the text the code reports. */
  datatype ValidationError = MissingField(field: string) | NotAString(field: string) {
    function Message(): string {
      match this
      case MissingField(f) => "нет поля " + f
      case NotAString(f) => "Поле " + f + " должно быть строкой"
    }
  }

  /** The rule table of the source, in its order. */
  const Rules: seq<Rule> := [
    Rule("searchid", {StringTag, Required}),
    Rule("do", {StringTag, Required}),
    Rule("query", {StringTag, Required})
  ]

  /** The fields a rule table covers. */
  function Fields(rules: seq<Rule>): set<string> {
    set i | 0 <= i < |rules| :: rules[i].field
  }

  /** No two rules name the same field (a PHP array cannot repeat a key). */
  predicate DistinctFields(rules: seq<Rule>) {
    forall i, j :: 0 <= i < j < |rules| ==> rules[i].field != rules[j].field
  }

  /**
   * The raw value of a field is blank when it is absent, `null`, or trims to
   * `""` or `"0"`.
   */
  predicate Blank(req: Request, field: string) {
    field !in req || Trim(TextAt(req, field)) == "" || Trim(TextAt(req, field)) == "0"
  }

  /**
   * `process_field`: the sanitised value of a field, or `null` when the field
   * is absent. A present `null` is read by `htmlspecialchars` as `""`.
   */
  function ProcessField(field: string, req: Request): (v: Option<string>)
    ensures v.None? <==> field !in req
    ensures v.Some? ==> NoMarkup(v.value)
  {
    if field in req then Some(Trim(Escape(TextAt(req, field)))) else None
  }

  /**
   * The processed value is the escaped trimmed raw value, and PHP's `empty()`
   * holds of it exactly when the raw value is blank.
   */
  lemma ProcessFieldValue(field: string, req: Request)
    ensures field in req ==> ProcessField(field, req) == Some(Escape(Trim(TextAt(req, field))))
    ensures EmptyValue(ProcessField(field, req)) <==> Blank(req, field)
  {
    TrimEscapeCommute(TextAt(req, field));
    EscapeEmptyText(Trim(TextAt(req, field)));
  }

  /** The error one rule raises on the value `process_field` gives it, if any. */
  function Check(rule: Rule, value: Option<string>): Option<ValidationError> {
    if Required in rule.tags && EmptyValue(value) then Some(MissingField(rule.field))
    else if StringTag in rule.tags && value.None? then Some(NotAString(rule.field))
    else None
  }

  /**
   * `validate_fields` over a rule table: each rule in turn sanitises its field,
   * writes the result back, and checks it.
   */
  function ValidateWith(rules: seq<Rule>, req: Request): Result<Request, ValidationError>
    decreases |rules|
  {
    if |rules| == 0 then Success(req)
    else
      var value := ProcessField(rules[0].field, req);
      match Check(rules[0], value)
      case Some(e) => Failure(e)
      case None => ValidateWith(rules[1..], req[rules[0].field := value])
  }

  /** Whether rule `i` fails on the original request. */
  predicate FailsAt(rules: seq<Rule>, req: Request, i: int)
    requires 0 <= i < |rules|
  {
    Check(rules[i], ProcessField(rules[i].field, req)).Some?
  }

  /** Rule `i` is the first rule of the table that fails on the original request. */
  predicate FirstFailure(rules: seq<Rule>, req: Request, i: int)
    requires 0 <= i < |rules|
  {
    FailsAt(rules, req, i) && forall j :: 0 <= j < i ==> !FailsAt(rules, req, j)
  }

  /** The request with every ruled field replaced by its sanitised value and every other key kept. */
  function Sanitised(rules: seq<Rule>, req: Request): (out: Request)
    ensures out.Keys == req.Keys + Fields(rules)
  {
    map k | k in req.Keys + Fields(rules) :: if k in Fields(rules) then ProcessField(k, req) else req[k]
  }

  /** Writing back a sanitised field does not change what later, different fields sanitise to. */
  lemma ProcessOtherField(f: string, g: string, v: Option<string>, req: Request)
    requires f != g
    ensures ProcessField(g, req[f := v]) == ProcessField(g, req)
  {
    assert ValueAt(req[f := v], g) == ValueAt(req, g);
  }

  /** After rule 0 passes, the remaining rules fail on the written-back request exactly where they failed on the original. */
  lemma FailsAfterWriteBack(rules: seq<Rule>, req: Request, j: int)
    requires DistinctFields(rules) && 0 <= j < |rules| - 1
    ensures FailsAt(rules[1..], req[rules[0].field := ProcessField(rules[0].field, req)], j) == FailsAt(rules, req, j + 1)
  {
    assert rules[1..][j] == rules[j + 1];
    ProcessOtherField(rules[0].field, rules[j + 1].field, ProcessField(rules[0].field, req), req);
  }

  /** `validate_fields` succeeds exactly when no rule fails on the original request. */
  lemma {:induction false} ValidateSucceeds(rules: seq<Rule>, req: Request)
    requires DistinctFields(rules)
    ensures ValidateWith(rules, req).Success? <==> forall i :: 0 <= i < |rules| ==> !FailsAt(rules, req, i)
    decreases |rules|
  {
    if |rules| > 0 && !FailsAt(rules, req, 0) {
      var req' := req[rules[0].field := ProcessField(rules[0].field, req)];
      ValidateSucceeds(rules[1..], req');
      assert ValidateWith(rules, req) == ValidateWith(rules[1..], req');
      if ValidateWith(rules[1..], req').Success? {
        forall i | 0 <= i < |rules| ensures !FailsAt(rules, req, i) {
          if i > 0 {
            FailsAfterWriteBack(rules, req, i - 1);
          }
        }
      } else {
        var j :| 0 <= j < |rules| - 1 && FailsAt(rules[1..], req', j);
        FailsAfterWriteBack(rules, req, j);
      }
    }
  }

  /** The fields of a non-empty table: its first field, which no later rule repeats, and the rest. */
  lemma FieldsCons(rules: seq<Rule>)
    requires DistinctFields(rules) && |rules| > 0
    ensures Fields(rules) == {rules[0].field} + Fields(rules[1..])
    ensures rules[0].field !in Fields(rules[1..])
  {
    var rest := rules[1..];
    forall g | g in Fields(rules) ensures g in {rules[0].field} + Fields(rest) {
      var i :| 0 <= i < |rules| && rules[i].field == g;
      if i > 0 {
        assert rest[i - 1].field == g;
      }
    }
    forall g | g in Fields(rest) ensures g in Fields(rules) && g != rules[0].field {
      var i :| 0 <= i < |rest| && rest[i].field == g;
      assert rules[i + 1].field == g;
    }
  }

  /** Sanitising the rest of the table after writing back the first field is sanitising the whole table. */
  lemma SanitisedCons(rules: seq<Rule>, req: Request)
    requires DistinctFields(rules) && |rules| > 0
    ensures Sanitised(rules[1..], req[rules[0].field := ProcessField(rules[0].field, req)]) == Sanitised(rules, req)
  {
    var f := rules[0].field;
    var value := ProcessField(f, req);
    var req' := req[f := value];
    FieldsCons(rules);
    var left, right := Sanitised(rules[1..], req'), Sanitised(rules, req);
    assert left.Keys == right.Keys;
    forall g | g in left.Keys ensures left[g] == right[g] {
      if g in Fields(rules[1..]) {
        ProcessOtherField(f, g, value, req);
      }
    }
  }

  /** A successful `validate_fields` returns the sanitised request. */
  lemma {:induction false} ValidateValue(rules: seq<Rule>, req: Request)
    requires DistinctFields(rules) && ValidateWith(rules, req).Success?
    ensures ValidateWith(rules, req).value == Sanitised(rules, req)
    decreases |rules|
  {
    if |rules| > 0 {
      var req' := req[rules[0].field := ProcessField(rules[0].field, req)];
      assert ValidateWith(rules, req) == ValidateWith(rules[1..], req');
      ValidateValue(rules[1..], req');
      SanitisedCons(rules, req);
    } else {
      assert Fields(rules) == {};
    }
  }

  /** A `validate_fields` that meets a failing rule stops there, with that rule's error. */
  lemma {:induction false} ValidateFailure(rules: seq<Rule>, req: Request, i: int)
    requires DistinctFields(rules) && 0 <= i < |rules| && FirstFailure(rules, req, i)
    ensures ValidateWith(rules, req) == Failure(Check(rules[i], ProcessField(rules[i].field, req)).value)
    decreases |rules|
  {
    if i > 0 {
      assert !FailsAt(rules, req, 0);
      var req' := req[rules[0].field := ProcessField(rules[0].field, req)];
      forall j | 0 <= j < i - 1 ensures !FailsAt(rules[1..], req', j) {
        FailsAfterWriteBack(rules, req, j);
        assert !FailsAt(rules, req, j + 1);
      }
      FailsAfterWriteBack(rules, req, i - 1);
      assert FirstFailure(rules[1..], req', i - 1);
      ValidateFailure(rules[1..], req', i - 1);
      assert rules[1..][i - 1] == rules[i];
      ProcessOtherField(rules[0].field, rules[i].field, ProcessField(rules[0].field, req), req);
    }
  }

  /** The source's rule table names three distinct fields, each both required and a string. */
  lemma RulesDistinct()
    ensures DistinctFields(Rules)
    ensures Fields(Rules) == {"searchid", "do", "query"}
  {
    assert Rules[0].field == "searchid" && Rules[1].field == "do" && Rules[2].field == "query";
    assert Fields(Rules) == {Rules[0].field, Rules[1].field, Rules[2].field};
  }

  /**
   * `validate_fields` with the source's rules. It rejects the first of
   * `searchid`, `do`, `query` whose raw value is blank, naming that field and
   * checking no later one; the "must be a string" error can never occur; on
   * success every ruled field holds its sanitised, non-empty, markup-free value
   * and every other key is returned unchanged.
   */
  function ValidateFields(req: Request): (r: Result<Request, ValidationError>)
    ensures r == Failure(MissingField("searchid")) <==> Blank(req, "searchid")
    ensures r == Failure(MissingField("do")) <==> !Blank(req, "searchid") && Blank(req, "do")
    ensures r == Failure(MissingField("query")) <==>
      !Blank(req, "searchid") && !Blank(req, "do") && Blank(req, "query")
    ensures r.Success? <==> !Blank(req, "searchid") && !Blank(req, "do") && !Blank(req, "query")
    ensures r.Failure? ==> r.error.MissingField?
    ensures r.Success? ==> r.value.Keys == req.Keys
    ensures r.Success? ==>
      && HoldsSanitised(r.value, req, "searchid")
      && HoldsSanitised(r.value, req, "do")
      && HoldsSanitised(r.value, req, "query")
    ensures r.Success? ==> forall k :: k in req && k !in {"searchid", "do", "query"} ==> r.value[k] == req[k]
  {
    SourceRulesOutcome(req);
    if ValidateWith(Rules, req).Success? then
      SourceRulesSuccess(req, ValidateWith(Rules, req).value);
      ValidateWith(Rules, req)
    else
      ValidateWith(Rules, req)
  }

  /** With the source's rules, validation fails naming the first blank field and succeeds when none is blank. */
  lemma SourceRulesOutcome(req: Request)
    ensures ValidateWith(Rules, req) == Failure(MissingField("searchid")) <==> Blank(req, "searchid")
    ensures ValidateWith(Rules, req) == Failure(MissingField("do")) <==> !Blank(req, "searchid") && Blank(req, "do")
    ensures ValidateWith(Rules, req) == Failure(MissingField("query")) <==>
      !Blank(req, "searchid") && !Blank(req, "do") && Blank(req, "query")
    ensures ValidateWith(Rules, req).Success? <==> !Blank(req, "searchid") && !Blank(req, "do") && !Blank(req, "query")
  {
    SourceRulesSucceed(req);
    SourceRulesFailures(req);
    SourceRulesFirstFailure(req);
  }

  /** With the source's rules, validation succeeds exactly when none of the three rules fails. */
  lemma SourceRulesSucceed(req: Request)
    ensures ValidateWith(Rules, req).Success? <==>
      !FailsAt(Rules, req, 0) && !FailsAt(Rules, req, 1) && !FailsAt(Rules, req, 2)
  {
    RulesDistinct();
    ValidateSucceeds(Rules, req);
    if !FailsAt(Rules, req, 0) && !FailsAt(Rules, req, 1) && !FailsAt(Rules, req, 2) {
      assert forall i :: 0 <= i < |Rules| ==> !FailsAt(Rules, req, i);
    }
  }

  /** With the source's rules, rule i fails exactly when the i-th of the three fields is blank. */
  lemma SourceRulesFailures(req: Request)
    ensures FailsAt(Rules, req, 0) <==> Blank(req, "searchid")
    ensures FailsAt(Rules, req, 1) <==> Blank(req, "do")
    ensures FailsAt(Rules, req, 2) <==> Blank(req, "query")
  {
    ProcessFieldValue("searchid", req);
    ProcessFieldValue("do", req);
    ProcessFieldValue("query", req);
  }

  /** `out` holds at `f` the sanitised value of `req`'s field `f`, and it is neither `null`, `""` nor `"0"` and free of markup. */
  predicate HoldsSanitised(out: Request, req: Request, f: string) {
    && f in out
    && out[f] == Some(Escape(Trim(TextAt(req, f))))
    && !EmptyValue(out[f])
    && NoMarkup(out[f].value)
  }

  /** With the source's rules, a successful validation returns the request with its three fields sanitised. */
  lemma SourceRulesSuccess(req: Request, out: Request)
    requires ValidateWith(Rules, req) == Success(out)
    ensures out.Keys == req.Keys
    ensures HoldsSanitised(out, req, "searchid") && HoldsSanitised(out, req, "do") && HoldsSanitised(out, req, "query")
    ensures forall k :: k in req && k !in {"searchid", "do", "query"} ==> out[k] == req[k]
  {
    SourceRulesSanitised(req, out);
    SanitisedSource(req);
    ProcessFieldValue("searchid", req);
    ProcessFieldValue("do", req);
    ProcessFieldValue("query", req);
  }

  /** With the source's rules, a successful validation returns the sanitised request, and no ruled field was blank. */
  lemma SourceRulesSanitised(req: Request, out: Request)
    requires ValidateWith(Rules, req) == Success(out)
    ensures !Blank(req, "searchid") && !Blank(req, "do") && !Blank(req, "query")
    ensures out == Sanitised(Rules, req)
  {
    RulesDistinct();
    ValidateValue(Rules, req);
    ValidateSucceeds(Rules, req);
    assert !FailsAt(Rules, req, 0) && !FailsAt(Rules, req, 1) && !FailsAt(Rules, req, 2);
    SourceRulesFailures(req);
  }

  /**
   * Sanitising with the source's rules a request that holds the three ruled
   * fields: the same keys, each ruled field sanitised, every other key kept.
   */
  lemma SanitisedSource(req: Request)
    requires "searchid" in req && "do" in req && "query" in req
    ensures Sanitised(Rules, req).Keys == req.Keys
    ensures forall f :: f in {"searchid", "do", "query"} ==>
      f in Sanitised(Rules, req) && Sanitised(Rules, req)[f] == ProcessField(f, req)
    ensures forall k :: k in req && k !in {"searchid", "do", "query"} ==> Sanitised(Rules, req)[k] == req[k]
  {
    RuledFieldsPresent(req);
    SanitisedAddsNoKey(req);
    SanitisedValues(req);
  }

  /** Sanitising with the source's rules replaces the three fields and keeps every other key. */
  lemma SanitisedValues(req: Request)
    ensures forall f :: f in {"searchid", "do", "query"} ==>
      f in Sanitised(Rules, req) && Sanitised(Rules, req)[f] == ProcessField(f, req)
    ensures forall k :: k in req && k !in {"searchid", "do", "query"} ==> Sanitised(Rules, req)[k] == req[k]
  {
    RulesDistinct();
    var out := Sanitised(Rules, req);
    assert "searchid" in out && out["searchid"] == ProcessField("searchid", req);
    assert "do" in out && out["do"] == ProcessField("do", req);
    assert "query" in out && out["query"] == ProcessField("query", req);
  }

  /** The three fields present means every ruled field present. */
  lemma RuledFieldsPresent(req: Request)
    requires "searchid" in req && "do" in req && "query" in req
    ensures Fields(Rules) <= req.Keys
  {
    RulesDistinct();
  }

  /** Sanitising adds no key when every ruled field is already present. */
  lemma SanitisedAddsNoKey(req: Request)
    requires Fields(Rules) <= req.Keys
    ensures Sanitised(Rules, req).Keys == req.Keys
  {
  }

  /** With the source's rules, the error names the first of the three fields that is blank. */
  lemma SourceRulesFirstFailure(req: Request)
    ensures Blank(req, "searchid") ==> ValidateWith(Rules, req) == Failure(MissingField("searchid"))
    ensures !Blank(req, "searchid") && Blank(req, "do") ==> ValidateWith(Rules, req) == Failure(MissingField("do"))
    ensures !Blank(req, "searchid") && !Blank(req, "do") && Blank(req, "query") ==>
      ValidateWith(Rules, req) == Failure(MissingField("query"))
  {
    SourceRulesFailures(req);
    FirstOfThree(req);
    if Blank(req, "searchid") {
      SourceRuleError(req, 0);
    } else if Blank(req, "do") {
      SourceRuleError(req, 1);
    } else if Blank(req, "query") {
      SourceRuleError(req, 2);
    }
  }

  /** Which of the source's three rules is the first to fail, read off the three failure facts. */
  lemma FirstOfThree(req: Request)
    ensures FailsAt(Rules, req, 0) ==> FirstFailure(Rules, req, 0)
    ensures !FailsAt(Rules, req, 0) && FailsAt(Rules, req, 1) ==> FirstFailure(Rules, req, 1)
    ensures !FailsAt(Rules, req, 0) && !FailsAt(Rules, req, 1) && FailsAt(Rules, req, 2) ==> FirstFailure(Rules, req, 2)
  {
  }

  /** With the source's rules, the first failing rule reports its field as missing. */
  lemma SourceRuleError(req: Request, i: int)
    requires 0 <= i < |Rules| && FirstFailure(Rules, req, i)
    ensures ValidateWith(Rules, req) == Failure(MissingField(Rules[i].field))
  {
    RulesDistinct();
    ValidateFailure(Rules, req, i);
    assert Required in Rules[i].tags;
  }
}
