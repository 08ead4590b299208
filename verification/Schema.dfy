/** Closed snapshot schemas: which rule sets are accepted at startup, and which snapshots the
    runtime validator then lets into history. */
module Schema {
  import opened Text
  import opened Grammar
  import opened Json

  datatype FieldRule = FieldRule(
    typ: string,
    required: bool,
    nullable: bool,
    fields: map<string, FieldRule>,
    items: Option<FieldRule>)

  const MAX_DEPTH := 16

  predicate FieldName(s: string)
  {
    0 < |s| <= 128 && Lower(s[0]) && forall i :: 0 <= i < |s| ==> Lower(s[i]) || Digit(s[i]) || s[i] == '_'
  }

  function ToLower(s: string): string
  {
    seq(|s|, i requires 0 <= i < |s| => if Upper(s[i]) then (s[i] as int + 32) as char else s[i])
  }

  const PROHIBITED_PARTS := ["password", "secret", "token", "authorization", "credential", "cookie", "private_key",
    "request_body"]

  predicate Prohibited(key: string)
  {
    exists i :: 0 <= i < |PROHIBITED_PARTS| && Contains(ToLower(key), PROHIBITED_PARTS[i])
  }

  lemma {:induction false} ContainsIs(s: string, part: string)
    ensures Contains(s, part) <==> exists i :: 0 <= i <= |s| && part <= s[i..]
  {
    assert s[0..] == s;
    if s != "" {
      ContainsIs(s[1..], part);
      assert forall i :: 1 <= i <= |s| ==> s[i..] == s[1..][i - 1..];
      if i :| 0 <= i <= |s| && part <= s[i..] {
        assert i > 0 ==> part <= s[1..][i - 1..];
      }
      if j :| 0 <= j <= |s[1..]| && part <= s[1..][j..] {
        assert part <= s[j + 1..];
      }
    }
  }

  ghost predicate WordStandsIn(key: string, word: string)
  {
    exists i, n :: 0 <= i <= n <= |key| && ToLower(key[i..n]) == word
  }

  lemma WordIsContained(key: string, word: string)
    ensures Contains(ToLower(key), word) <==> WordStandsIn(key, word)
  {
    var low := ToLower(key);
    ContainsIs(low, word);
    assert forall i, n :: 0 <= i <= n <= |key| ==> ToLower(key[i..n]) == low[i..n];
    if i :| 0 <= i <= |low| && word <= low[i..] {
      assert low[i..i + |word|] == word;
      assert ToLower(key[i..i + |word|]) == word;
    }
    if i, n :| 0 <= i <= n <= |key| && ToLower(key[i..n]) == word {
      assert low[i..n] <= low[i..];
    }
  }

  /** A key is prohibited exactly if one of the words stands anywhere in it, in any mix of cases. */
  lemma ProhibitedAnywhere(key: string)
    ensures Prohibited(key) <==> exists word :: word in PROHIBITED_PARTS && WordStandsIn(key, word)
  {
    forall word ensures Contains(ToLower(key), word) <==> WordStandsIn(key, word) {
      WordIsContained(key, word);
    }
    if i :| 0 <= i < |PROHIBITED_PARTS| && Contains(ToLower(key), PROHIBITED_PARTS[i]) {
      assert PROHIBITED_PARTS[i] in PROHIBITED_PARTS;
    }
  }

  predicate Digits(s: string)
  {
    s != "" && forall i :: 0 <= i < |s| ==> Digit(s[i])
  }

  /** The JSON number with this sign, whole part, fraction and exponent (section 6 of RFC 8259). */
  predicate NumberParts(sign: string, whole: string, fraction: string, exponent: string)
  {
    && (sign == "" || sign == "-") && Digits(whole)
    && (fraction == "" || (fraction[0] == '.' && Digits(fraction[1..])))
    && (exponent == "" ||
        (exponent[0] in "eE" &&
         (Digits(exponent[1..]) || (|exponent| > 1 && exponent[1] in "+-" && Digits(exponent[2..])))))
  }

  /** A number counts as an integer exactly if it is spelled without fraction and exponent. */
  lemma IntegersAreWhole(sign: string, whole: string, fraction: string, exponent: string)
    requires NumberParts(sign, whole, fraction, exponent)
    ensures IntegerSpelling(sign + whole + fraction + exponent) <==> fraction == "" && exponent == ""
  {
    var s := sign + whole + fraction + exponent;
    if fraction != "" {
      assert s[|sign| + |whole|] == fraction[0];
    } else if exponent != "" {
      assert s[|sign| + |whole|] == exponent[0];
    }
  }

  // ---------------------------------------------------------------------------
  // Startup: validateAuditRules
  // ---------------------------------------------------------------------------

  predicate RulesAccepted(fields: map<string, FieldRule>, depth: nat)
    decreases MAX_DEPTH - depth, 1
  {
    && depth < MAX_DEPTH
    && fields != map[]
    && forall key :: key in fields ==> FieldName(key) && !Prohibited(key) && RuleAccepted(fields[key], depth)
  }

  predicate RuleAccepted(rule: FieldRule, depth: nat)
    requires depth < MAX_DEPTH
    decreases MAX_DEPTH - depth, 0
  {
    if rule.typ in ["string", "boolean", "integer", "number"] then rule.fields == map[] && rule.items.None?
    else if rule.typ == "object" then rule.items.None? && RulesAccepted(rule.fields, depth + 1)
    else if rule.typ == "array"
      then rule.fields == map[] && rule.items.Some? && RulesAccepted(map["item" := rule.items.value], depth + 1)
    else false
  }

  // What startup accepts, in three independent rules

  /** Field names everywhere are well formed and harmless. */
  predicate NamesFine(rule: FieldRule)
  {
    && (forall key :: key in rule.fields ==> FieldName(key) && !Prohibited(key) && NamesFine(rule.fields[key]))
    && (rule.items.Some? ==> NamesFine(rule.items.value))
  }

  /** Scalars have no parts, objects at least one field and no item rule, arrays an item rule and no fields. */
  predicate PartsFine(rule: FieldRule)
  {
    && (rule.typ in ["string", "boolean", "integer", "number"] || rule.typ == "object" || rule.typ == "array")
    && (rule.typ == "object" <==> rule.fields != map[])
    && (rule.typ == "array" <==> rule.items.Some?)
    && (forall key :: key in rule.fields ==> PartsFine(rule.fields[key]))
    && (rule.items.Some? ==> PartsFine(rule.items.value))
  }

  /** At most `levels` objects and arrays lie inside each other. */
  predicate NestsWithin(rule: FieldRule, levels: int)
  {
    && (rule.fields != map[] || rule.items.Some? ==> levels > 0)
    && (forall key :: key in rule.fields ==> NestsWithin(rule.fields[key], levels - 1))
    && (rule.items.Some? ==> NestsWithin(rule.items.value, levels - 1))
  }

  lemma ItemIsFine()
    ensures FieldName("item") && !Prohibited("item")
  {
    ProhibitedAnywhere("item");
    forall word | word in PROHIBITED_PARTS ensures !WordStandsIn("item", word) {
      assert |word| > 4;
      forall i, n | 0 <= i <= n <= |"item"| ensures ToLower("item"[i..n]) != word {
        assert |ToLower("item"[i..n])| <= 4;
      }
    }
  }

  predicate Fine(rule: FieldRule, levels: int)
  {
    NamesFine(rule) && PartsFine(rule) && NestsWithin(rule, levels)
  }

  predicate KeyFine(key: string)
  {
    FieldName(key) && !Prohibited(key)
  }

  predicate ScalarType(typ: string)
  {
    typ in ["string", "boolean", "integer", "number"]
  }

  // One level of both sides

  lemma FineScalar(rule: FieldRule, levels: int)
    requires rule.typ != "object" && rule.typ != "array"
    ensures Fine(rule, levels) <==> ScalarType(rule.typ) && rule.fields == map[] && rule.items.None?
  {
  }

  lemma FineObject(rule: FieldRule, levels: int)
    requires rule.typ == "object"
    ensures Fine(rule, levels) <==>
              && rule.fields != map[] && rule.items.None? && levels > 0
              && forall key :: key in rule.fields ==> KeyFine(key) && Fine(rule.fields[key], levels - 1)
  {
  }

  lemma FineArray(rule: FieldRule, levels: int)
    requires rule.typ == "array"
    ensures Fine(rule, levels) <==>
              rule.fields == map[] && rule.items.Some? && levels > 0 && Fine(rule.items.value, levels - 1)
  {
  }

  lemma AcceptedItem(item: FieldRule, depth: nat)
    requires depth < MAX_DEPTH
    ensures RulesAccepted(map["item" := item], depth) <==> RuleAccepted(item, depth)
  {
    ItemIsFine();
    var fields := map["item" := item];
    assert "item" in fields && fields["item"] == item && fields != map[];
    if RuleAccepted(item, depth) {
      forall key | key in fields ensures FieldName(key) && !Prohibited(key) && RuleAccepted(fields[key], depth) {
        assert key == "item";
      }
    }
  }

  /** A rule is accepted exactly if its names, its parts and its nesting are fine. */
  lemma {:induction false} RuleAcceptedExactly(rule: FieldRule, depth: nat)
    requires depth < MAX_DEPTH
    ensures RuleAccepted(rule, depth) <==> Fine(rule, MAX_DEPTH - 1 - depth)
    decreases MAX_DEPTH - depth, 0
  {
    var levels := MAX_DEPTH - 1 - depth;
    if rule.typ == "object" {
      FineObject(rule, levels);
      if depth + 1 < MAX_DEPTH {
        RulesAcceptedExactly(rule.fields, depth + 1);
      }
    } else if rule.typ == "array" {
      FineArray(rule, levels);
      if depth + 1 < MAX_DEPTH && rule.items.Some? {
        AcceptedItem(rule.items.value, depth + 1);
        RuleAcceptedExactly(rule.items.value, depth + 1);
      }
    } else {
      FineScalar(rule, levels);
    }
  }

  /** Startup accepts exactly the non-empty rule sets whose names, parts and nesting are fine: at the root,
      at most fifteen objects and arrays inside each other. */
  lemma {:induction false} RulesAcceptedExactly(fields: map<string, FieldRule>, depth: nat)
    requires depth < MAX_DEPTH
    ensures RulesAccepted(fields, depth) <==>
              fields != map[] &&
              forall key :: key in fields ==> KeyFine(key) && Fine(fields[key], MAX_DEPTH - 1 - depth)
    decreases MAX_DEPTH - depth, 1
  {
    forall key | key in fields ensures RuleAccepted(fields[key], depth) <==> Fine(fields[key], MAX_DEPTH - 1 - depth) {
      RuleAcceptedExactly(fields[key], depth);
    }
  }

  // ---------------------------------------------------------------------------
  // Runtime: validateAuditObject and validateAuditValue
  // ---------------------------------------------------------------------------

  /** `NilItems` is the null dereference of a missing item rule. */
  datatype Problem = TooDeep | NotAnObject | Unapproved | MissingRequired | NullValue | WrongType | NilItems

  predicate IntegerSpelling(s: string)
  {
    forall i :: 0 <= i < |s| ==> s[i] != '.' && s[i] != 'e' && s[i] != 'E'
  }

  /** The problems some map iteration order could report; a snapshot is accepted when there are none. */
  ghost predicate ObjectReports(v: Value, fields: map<string, FieldRule>, depth: nat, p: Problem)
    decreases v, 1
  {
    if depth > MAX_DEPTH then p == TooDeep
    else if !v.VObj? then p == NotAnObject
    else
      || (exists key :: key in v.members && MemberReports(v, key, fields, depth, p))
      || (p == MissingRequired && exists key :: key in fields && fields[key].required && key !in v.members)
  }

  ghost predicate MemberReports(v: Value, key: string, fields: map<string, FieldRule>, depth: nat, p: Problem)
    requires v.VObj? && key in v.members
    decreases v, 0
  {
    if key in fields then ValueReports(v.members[key], fields[key], depth + 1, p) else p == Unapproved
  }

  ghost predicate ValueReports(v: Value, rule: FieldRule, depth: nat, p: Problem)
    decreases v, 2
  {
    if depth > MAX_DEPTH then p == TooDeep
    else if v.VNull? then !rule.nullable && p == NullValue
    else if rule.typ == "object" then ObjectReports(v, rule.fields, depth, p)
    else if rule.typ == "array" then
      if !v.VArr? then p == WrongType
      else if rule.items.None? then v.items != [] && p == NilItems
      else exists i :: 0 <= i < |v.items| && ValueReports(v.items[i], rule.items.value, depth + 1, p)
    else p == WrongType && !ScalarOk(v, rule.typ)
  }

  /** The validator called on a snapshot root. */
  ghost predicate Accepts(v: Value, fields: map<string, FieldRule>)
  {
    forall p :: !ObjectReports(v, fields, 0, p)
  }

  predicate ScalarOk(v: Value, typ: string)
  {
    || (typ == "string" && v.VStr?)
    || (typ == "boolean" && v.VBool?)
    || (typ == "number" && v.VNum?)
    || (typ == "integer" && v.VNum? && IntegerSpelling(v.spelling))
  }

  // ---------------------------------------------------------------------------
  // Denotation: the values a schema describes, without depth or order
  // ---------------------------------------------------------------------------

  predicate InSchema(v: Value, fields: map<string, FieldRule>)
    decreases v, 0
  {
    && v.VObj?
    && (forall key :: key in v.members ==> key in fields && Conforms(v.members[key], fields[key]))
    && (forall key :: key in fields && fields[key].required ==> key in v.members)
  }

  predicate Conforms(v: Value, rule: FieldRule)
    decreases v, 1
  {
    match v
    case VNull => rule.nullable
    case VObj(_) => rule.typ == "object" && InSchema(v, rule.fields)
    case VArr(items) => rule.typ == "array" && rule.items.Some? &&
      forall i :: 0 <= i < |items| ==> Conforms(items[i], rule.items.value)
    case VStr(_) => rule.typ == "string"
    case VBool(_) => rule.typ == "boolean"
    case VNum(s) => rule.typ == "number" || (rule.typ == "integer" && IntegerSpelling(s))
  }

  /** No object anywhere inside has a credential-bearing or malformed key. */
  predicate CleanKeys(v: Value)
  {
    match v
    case VObj(m) => forall key :: key in m ==> !Prohibited(key) && FieldName(key) && CleanKeys(m[key])
    case VArr(items) => forall i :: 0 <= i < |items| ==> CleanKeys(items[i])
    case _ => true
  }

  lemma ItemRuleAccepted(rule: FieldRule, depth: nat)
    requires depth < MAX_DEPTH && RuleAccepted(rule, depth) && rule.typ == "array"
    ensures depth + 1 < MAX_DEPTH && RuleAccepted(rule.items.value, depth + 1)
  {
    var fields := map["item" := rule.items.value];
    assert RulesAccepted(fields, depth + 1);
    assert "item" in fields && fields["item"] == rule.items.value;
  }

  /** What is described is not complained about; what is complained about is neither depth nor a
      missing item rule. */
  lemma {:induction false} DescribedIsAccepted(v: Value, rule: FieldRule, depth: nat, p: Problem)
    requires depth < MAX_DEPTH && RuleAccepted(rule, depth)
    ensures ValueReports(v, rule, depth + 1, p) ==> !Conforms(v, rule) && p != TooDeep && p != NilItems
    ensures Conforms(v, rule) ==> CleanKeys(v)
    decreases v, 1
  {
    if rule.typ == "object" && !v.VNull? {
      DescribedObjectIsAccepted(v, rule.fields, depth + 1, p);
    } else if rule.typ == "array" && v.VArr? {
      ItemRuleAccepted(rule, depth);
      forall i | 0 <= i < |v.items|
        ensures ValueReports(v.items[i], rule.items.value, depth + 2, p) ==>
                  !Conforms(v.items[i], rule.items.value) && p != TooDeep && p != NilItems
        ensures Conforms(v.items[i], rule.items.value) ==> CleanKeys(v.items[i])
      {
        DescribedIsAccepted(v.items[i], rule.items.value, depth + 1, p);
      }
    }
  }

  lemma {:induction false} DescribedObjectIsAccepted(v: Value, fields: map<string, FieldRule>, depth: nat, p: Problem)
    requires RulesAccepted(fields, depth)
    ensures ObjectReports(v, fields, depth, p) ==> !InSchema(v, fields) && p != TooDeep && p != NilItems
    ensures InSchema(v, fields) ==> CleanKeys(v)
    decreases v, 0
  {
    if v.VObj? {
      forall key | key in v.members
        ensures MemberReports(v, key, fields, depth, p) ==>
                  !(key in fields && Conforms(v.members[key], fields[key])) && p != TooDeep && p != NilItems
        ensures key in fields && Conforms(v.members[key], fields[key]) ==> CleanKeys(v.members[key])
      {
        if key in fields {
          DescribedIsAccepted(v.members[key], fields[key], depth, p);
        }
      }
    }
  }

  /** What is not described has a reportable problem. */
  lemma {:induction false} OthersAreRefused(v: Value, rule: FieldRule, depth: nat) returns (p: Problem)
    requires depth < MAX_DEPTH && RuleAccepted(rule, depth) && !Conforms(v, rule)
    ensures ValueReports(v, rule, depth + 1, p)
    decreases v, 1
  {
    if v.VNull? {
      return NullValue;
    }
    if rule.typ == "object" {
      p := OtherObjectsAreRefused(v, rule.fields, depth + 1);
    } else if rule.typ == "array" && v.VArr? {
      ItemRuleAccepted(rule, depth);
      var i :| 0 <= i < |v.items| && !Conforms(v.items[i], rule.items.value);
      p := OthersAreRefused(v.items[i], rule.items.value, depth + 1);
    } else {
      p := WrongType;
    }
  }

  lemma {:induction false} OtherObjectsAreRefused(v: Value, fields: map<string, FieldRule>, depth: nat)
    returns (p: Problem)
    requires RulesAccepted(fields, depth) && !InSchema(v, fields)
    ensures ObjectReports(v, fields, depth, p)
    decreases v, 0
  {
    if !v.VObj? {
      return NotAnObject;
    }
    if key :| key in v.members && !(key in fields && Conforms(v.members[key], fields[key])) {
      if key in fields {
        p := OthersAreRefused(v.members[key], fields[key], depth);
      } else {
        p := Unapproved;
      }
      assert MemberReports(v, key, fields, depth, p);
    } else {
      p := MissingRequired;
    }
  }

  /** Closed schemas: under every rule set accepted at startup, the runtime validator accepts exactly
      the snapshots the schema describes, never meets its depth limit or a missing item rule, and
      lets no prohibited key through at any depth. */
  lemma AcceptedSchemaIsClosed(v: Value, fields: map<string, FieldRule>)
    requires RulesAccepted(fields, 0)
    ensures Accepts(v, fields) <==> InSchema(v, fields)
    ensures !ObjectReports(v, fields, 0, TooDeep) && !ObjectReports(v, fields, 0, NilItems)
    ensures InSchema(v, fields) ==> CleanKeys(v)
  {
    forall p ensures ObjectReports(v, fields, 0, p) ==> !InSchema(v, fields) && p != TooDeep && p != NilItems {
      DescribedObjectIsAccepted(v, fields, 0, p);
    }
    if InSchema(v, fields) {
      DescribedObjectIsAccepted(v, fields, 0, TooDeep);
    } else {
      var p := OtherObjectsAreRefused(v, fields, 0);
      assert !Accepts(v, fields);
    }
  }
}
