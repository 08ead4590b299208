/** Legacy template expansion: `{{ dotted.path }}` variables in configuration strings. */
module Templates {
  import opened Text
  import opened Json

  datatype Result<+T> = Ok(value: T) | Err

  // ---------------------------------------------------------------------------
  // Dotted paths
  // ---------------------------------------------------------------------------

  function Split(s: string): (parts: seq<string>)
    ensures parts != []
  {
    if s == "" then [""]
    else if s[0] == '.' then [""] + Split(s[1..])
    else var parts := Split(s[1..]); [[s[0]] + parts[0]] + parts[1..]
  }

  function Dotted(parts: seq<string>): string
    requires parts != []
  {
    if |parts| == 1 then parts[0] else parts[0] + "." + Dotted(parts[1..])
  }

  lemma {:induction false} SplitIsInverseOfDotted(s: string)
    ensures Dotted(Split(s)) == s
    ensures forall i :: 0 <= i < |Split(s)| ==> '.' !in Split(s)[i]
  {
    if s != "" {
      SplitIsInverseOfDotted(s[1..]);
      var rest, all := Split(s[1..]), Split(s);
      assert s == [s[0]] + s[1..];
      if s[0] == '.' {
        assert all[1..] == rest;
      } else {
        assert all[1..] == rest[1..];
        forall i | 0 <= i < |all| ensures '.' !in all[i] {
          assert i > 0 ==> all[i] == rest[i];
        }
      }
    }
  }

  datatype Found = Found(value: Value) | Missing | NotAnObject

  function Follow(v: Value, parts: seq<string>): Found
  {
    if parts == [] then Found(v)
    else if !v.VObj? then NotAnObject
    else if parts[0] !in v.members then Missing
    else Follow(v.members[parts[0]], parts[1..])
  }

  function Lookup(data: map<string, Value>, path: string): Found
  {
    Follow(VObj(data), Split(path))
  }

  /** Some part of the path leads to something that is not an object, with more to follow. */
  ghost predicate Broken(v: Value, parts: seq<string>)
  {
    exists k :: 0 <= k < |parts| && Follow(v, parts[..k]).Found? && !Follow(v, parts[..k]).value.VObj?
  }

  /** Some part of the path is no member of the object it should be in. */
  ghost predicate Lacking(v: Value, parts: seq<string>)
  {
    exists k :: 0 <= k < |parts| && Follow(v, parts[..k]).Found? && Follow(v, parts[..k]).value.VObj? &&
                parts[k] !in Follow(v, parts[..k]).value.members
  }

  /** A lookup fails on the first part that does not lead on: missing if it is no member of an object,
      broken if there is no object to look in. */
  lemma {:induction false} FollowIsExact(v: Value, parts: seq<string>)
    ensures Follow(v, parts) == NotAnObject <==> Broken(v, parts)
    ensures Follow(v, parts) == Missing <==> Lacking(v, parts)
  {
    assert parts[..0] == [];
    if parts != [] && v.VObj? && parts[0] in v.members {
      var next, rest := v.members[parts[0]], parts[1..];
      FollowIsExact(next, rest);
      forall k | 0 < k <= |parts| ensures Follow(v, parts[..k]) == Follow(next, rest[..k - 1]) {
        assert parts[..k][1..] == rest[..k - 1];
      }
      if k :| 0 <= k < |rest| && Follow(next, rest[..k]).Found? && !Follow(next, rest[..k]).value.VObj? {
        assert Follow(v, parts[..k + 1]) == Follow(next, rest[..k]);
      }
      if k :| 0 <= k < |rest| && Follow(next, rest[..k]).Found? && Follow(next, rest[..k]).value.VObj? &&
              rest[k] !in Follow(next, rest[..k]).value.members {
        assert Follow(v, parts[..k + 1]) == Follow(next, rest[..k]) && parts[k + 1] == rest[k];
      }
    }
  }

  method GetNestedField(data: map<string, Value>, path: string) returns (r: Found)
    ensures r == Lookup(data, path)
  {
    var parts := Split(path);
    var current := VObj(data);
    assert parts[0..] == parts;
    for i := 0 to |parts|
      invariant Follow(current, parts[i..]) == Lookup(data, path)
    {
      assert parts[i..][1..] == parts[i + 1..];
      if !current.VObj? {
        return NotAnObject;
      }
      if parts[i] !in current.members {
        return Missing;
      }
      current := current.members[parts[i]];
    }
    return Found(current);
  }

  // ---------------------------------------------------------------------------
  // String searching
  // ---------------------------------------------------------------------------

  function ReplaceAll(s: string, part: string, fill: string): string
    requires part != ""
  {
    if s == "" then ""
    else if part <= s then fill + ReplaceAll(s[|part|..], part, fill)
    else [s[0]] + ReplaceAll(s[1..], part, fill)
  }

  function Count(s: string, part: string): nat
    requires part != ""
  {
    if s == "" then 0
    else if part <= s then 1 + Count(s[|part|..], part)
    else Count(s[1..], part)
  }

  predicate Space(c: char)
  {
    c in "\t\n\r \U{C}"
  }

  /** What `strings.TrimSpace` removes. */
  predicate AnySpace(c: char)
  {
    Space(c) || c in "\U{B}\U{85}\U{A0}\U{1680}\U{2028}\U{2029}\U{202F}\U{205F}\U{3000}" ||
      '\U{2000}' <= c <= '\U{200A}'
  }

  function TrimSpace(s: string): string
  {
    if s == "" then ""
    else if AnySpace(s[0]) then TrimSpace(s[1..])
    else if AnySpace(s[|s| - 1]) then TrimSpace(s[..|s| - 1])
    else s
  }

  predicate NameChar(c: char)
  {
    'a' <= c <= 'z' || 'A' <= c <= 'Z' || '0' <= c <= '9' || c == '_' || c == '.'
  }

  function AfterSpaces(s: string): (r: string)
    ensures |r| <= |s|
  {
    if s != "" && Space(s[0]) then AfterSpaces(s[1..]) else s
  }

  function AfterName(s: string): (r: string)
    ensures |r| <= |s|
  {
    if s != "" && NameChar(s[0]) then AfterName(s[1..]) else s
  }

  datatype Match = Match(full: string, path: string)

  /** A variable at the very start of `s`. The character classes are disjoint, so greedy is exact. */
  function MatchHead(s: string): (m: Option<Match>)
    ensures m.Some? ==> m.value.full != "" && m.value.full <= s
  {
    if !("{{" <= s) then None
    else
      var name := AfterSpaces(s[2..]);
      var after := AfterName(name);
      var close := AfterSpaces(after);
      if |after| < |name| && "}}" <= close then Some(Match(s[..|s| - |close| + 2], name[..|name| - |after|])) else None
  }

  function FindAll(s: string): seq<Match>
  {
    if s == "" then []
    else
      var m := MatchHead(s);
      if m.Some? then [m.value] + FindAll(s[|m.value.full|..]) else FindAll(s[1..])
  }

  // ---------------------------------------------------------------------------
  // Expansion
  // ---------------------------------------------------------------------------

  /** Data for the expansion; `show` is the formatting of values that are neither strings nor booleans. */
  datatype Env = Env(data: map<string, Value>, show: Value -> string)

  function Shown(env: Env, v: Value): string
  {
    if v.VStr? then v.s else if v.VBool? then (if v.b then "true" else "false") else env.show(v)
  }

  /** The text put in place of a variable; a missing field is blank, a broken path an error. */
  function Substitute(env: Env, path: string): Result<string>
  {
    match Lookup(env.data, path)
    case Found(v) => Ok(Shown(env, v))
    case Missing => Ok("")
    case NotAnObject => Err
  }

  function Sequential(env: Env, result: string, matches: seq<Match>): Result<string>
    requires forall m :: m in matches ==> m.full != ""
    decreases |matches|
  {
    if matches == [] then Ok(result)
    else
      var text := Substitute(env, matches[0].path);
      if text.Err? then Err else Sequential(env, ReplaceAll(result, matches[0].full, text.value), matches[1..])
  }

  lemma {:induction false} MatchesAreNotEmpty(s: string)
    ensures forall m :: m in FindAll(s) ==> m.full != ""
    decreases |s|
  {
    if s != "" {
      var m := MatchHead(s);
      MatchesAreNotEmpty(if m.Some? then s[|m.value.full|..] else s[1..]);
    }
  }

  predicate WholeValue(template: string)
  {
    |template| >= 4 && "{{" <= template && template[|template| - 2..] == "}}" && Count(template, "{{") == 1
  }

  /** A template that is one variable keeps the type of its value. */
  function WholeResult(env: Env, path: string): Result<Value>
  {
    match Lookup(env.data, path)
    case Found(v) => Ok(v)
    case Missing => Ok(VStr(""))
    case NotAnObject => Err
  }

  /** Everything between the first two and the last two characters. */
  function OuterPath(template: string): string
    requires |template| >= 4
  {
    TrimSpace(template[2..|template| - 2])
  }

  function ExpandString(env: Env, template: string): Result<Value>
  {
    if Contains(template, "\\{{") then Ok(VStr(ReplaceAll(template, "\\{{", "{{")))
    else if WholeValue(template) then WholeResult(env, OuterPath(template))
    else EmbeddedResult(env, template)
  }

  function EmbeddedResult(env: Env, template: string): Result<Value>
  {
    MatchesAreNotEmpty(template);
    var text := Sequential(env, template, FindAll(template));
    if text.Ok? then Ok(VStr(text.value)) else Err
  }

  /** What stands for a variable: the value found, strings as they are and booleans by name; nothing for a
      missing field; and an error exactly for a path that runs through something other than an object. */
  lemma SubstituteIsExact(env: Env, path: string)
    ensures Substitute(env, path).Err? <==> Lookup(env.data, path) == NotAnObject
    ensures Lookup(env.data, path) == Missing ==> Substitute(env, path) == Ok("")
    ensures forall s :: Lookup(env.data, path) == Found(VStr(s)) ==> Substitute(env, path) == Ok(s)
    ensures Lookup(env.data, path) == Found(VBool(true)) ==> Substitute(env, path) == Ok("true")
    ensures Lookup(env.data, path) == Found(VBool(false)) ==> Substitute(env, path) == Ok("false")
    ensures Substitute(env, path).Err? <==> Broken(VObj(env.data), Split(path))
  {
    FollowIsExact(VObj(env.data), Split(path));
  }

  // Escapes

  /** Parts with a separator between them. */
  function Between(parts: seq<string>, separator: string): string
    requires parts != []
  {
    if |parts| == 1 then parts[0] else parts[0] + (separator + Between(parts[1..], separator))
  }

  lemma {:induction false} ReplacePasses(l: string, rest: string, part: string, fill: string)
    requires part != "" && forall i :: 0 <= i < |l| ==> l[i] != part[0]
    ensures ReplaceAll(l + rest, part, fill) == l + ReplaceAll(rest, part, fill)
    ensures Contains(l + rest, part) <==> Contains(rest, part)
  {
    if l == "" {
      assert l + rest == rest;
    } else {
      var s := l + rest;
      assert s[1..] == l[1..] + rest && s[0] == l[0];
      ReplacePasses(l[1..], rest, part, fill);
      assert [l[0]] + (l[1..] + ReplaceAll(rest, part, fill)) == l + ReplaceAll(rest, part, fill);
    }
  }

  lemma {:induction false} ReplaceBetween(parts: seq<string>, part: string, fill: string)
    requires parts != [] && part != ""
    requires forall p :: p in parts ==> forall i :: 0 <= i < |p| ==> p[i] != part[0]
    ensures ReplaceAll(Between(parts, part), part, fill) == Between(parts, fill)
    ensures |parts| > 1 ==> Contains(Between(parts, part), part)
  {
    var p := parts[0];
    if |parts| == 1 {
      ReplacePasses(p, "", part, fill);
      assert p + "" == p && p + ReplaceAll("", part, fill) == p;
    } else {
      var rest := Between(parts[1..], part);
      ReplaceBetween(parts[1..], part, fill);
      ReplacePasses(p, part + rest, part, fill);
      assert (part + rest)[|part|..] == rest;
    }
  }

  /** One escape makes the whole string literal: every escaped opening comes out as two braces, whatever
      the data, and nothing in the string is looked up. */
  lemma EscapesAreLiteral(env: Env, parts: seq<string>)
    requires |parts| > 1 && forall p :: p in parts ==> forall i :: 0 <= i < |p| ==> p[i] != '\\'
    ensures ExpandString(env, Between(parts, "\\{{")) == Ok(VStr(Between(parts, "{{")))
  {
    ReplaceBetween(parts, "\\{{", "{{");
  }

  lemma WholeLooksUp(env: Env, template: string)
    requires WholeValue(template) && !Contains(template, "\\{{")
    ensures ExpandString(env, template) == WholeResult(env, OuterPath(template))
  {
  }

  method ExpandTemplateString(env: Env, template: string) returns (r: Result<Value>)
    ensures r == ExpandString(env, template)
  {
    if Contains(template, "\\{{") {
      return Ok(VStr(ReplaceAll(template, "\\{{", "{{")));
    }
    if WholeValue(template) {
      var field := GetNestedField(env.data, OuterPath(template));
      match field {
        case Found(v) => return Ok(v);
        case Missing => return Ok(VStr(""));
        case NotAnObject => return Err;
      }
    }
    var result := template;
    var matches := FindAll(template);
    MatchesAreNotEmpty(template);
    assert matches[0..] == matches;
    for i := 0 to |matches|
      invariant Sequential(env, result, matches[i..]) == Sequential(env, template, matches)
    {
      assert matches[i..][1..] == matches[i + 1..];
      var field := GetNestedField(env.data, matches[i].path);
      match field {
        case NotAnObject => return Err;
        case Missing => result := ReplaceAll(result, matches[i].full, "");
        case Found(v) => result := ReplaceAll(result, matches[i].full, Shown(env, v));
      }
    }
    return Ok(VStr(result));
  }

  /** The recursive walk. Only strings change; an error anywhere is an error. */
  function Expand(env: Env, v: Value): Result<Value>
  {
    match v
    case VStr(s) => ExpandString(env, s)
    case VArr(items) =>
      if exists i :: 0 <= i < |items| && Expand(env, items[i]).Err? then Err
      else Ok(VArr(seq(|items|, i requires 0 <= i < |items| => Expand(env, items[i]).value)))
    case VObj(ms) =>
      if exists key :: key in ms && Expand(env, ms[key]).Err? then Err
      else Ok(VObj(map key | key in ms :: Expand(env, ms[key]).value))
    case _ => Ok(v)
  }

  /** `r` is `v` with each string leaf replaced by its own expansion. */
  ghost predicate OnlyStringsChange(env: Env, v: Value, r: Value)
  {
    match v
    case VStr(s) => ExpandString(env, s) == Ok(r)
    case VArr(items) => r.VArr? && |r.items| == |items| &&
      forall i :: 0 <= i < |items| ==> OnlyStringsChange(env, items[i], r.items[i])
    case VObj(ms) => r.VObj? && r.members.Keys == ms.Keys &&
      forall key :: key in ms ==> OnlyStringsChange(env, ms[key], r.members[key])
    case _ => r == v
  }

  /** Expansion succeeds with `r` exactly when `r` keeps every array length, every key and every
      other leaf, and has each string's expansion in that string's place. */
  lemma {:induction false} ExpandKeepsShape(env: Env, v: Value, r: Value)
    ensures Expand(env, v) == Ok(r) <==> OnlyStringsChange(env, v, r)
  {
    match v
    case VArr(items) =>
      forall i, x | 0 <= i < |items| ensures Expand(env, items[i]) == Ok(x) <==> OnlyStringsChange(env, items[i], x) {
        ExpandKeepsShape(env, items[i], x);
      }
      if OnlyStringsChange(env, v, r) {
        forall i | 0 <= i < |items| ensures Expand(env, items[i]) == Ok(r.items[i]) {
          assert OnlyStringsChange(env, items[i], r.items[i]);
        }
        assert Expand(env, v).value.items == r.items;
      }
    case VObj(ms) =>
      forall key, x | key in ms ensures Expand(env, ms[key]) == Ok(x) <==> OnlyStringsChange(env, ms[key], x) {
        ExpandKeepsShape(env, ms[key], x);
      }
      if OnlyStringsChange(env, v, r) {
        forall key | key in ms ensures Expand(env, ms[key]) == Ok(r.members[key]) {
          assert OnlyStringsChange(env, ms[key], r.members[key]);
        }
        assert Expand(env, v).value.members == r.members;
      }
    case _ =>
  }
}
