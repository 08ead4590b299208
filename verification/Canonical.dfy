/** JSON text as the encoder writes it, and the canonical form of a document: decode into
    unordered objects, then write the members in key order. */
module Canonical {
  import opened Text
  import opened Json
  import opened JsonShape

  // ---------------------------------------------------------------------------
  // Strings
  // ---------------------------------------------------------------------------

  function Hex(n: nat): char
    requires n < 16
  {
    if n < 10 then '0' + n as char else 'a' + (n - 10) as char
  }

  predicate NeedsCode(c: char)
  {
    c < ' ' || c == '<' || c == '>' || c == '&'
  }

  function Escape(c: char): (e: string)
    ensures e != "" && e[0] != '"'
  {
    if c == '"' then "\\\""
    else if c == '\\' then "\\\\"
    else if c == '\n' then "\\n"
    else if c == '\r' then "\\r"
    else if c == '\t' then "\\t"
    else if c == '\U{8}' then "\\b"
    else if c == '\U{C}' then "\\f"
    else if NeedsCode(c) then "\\u00" + [Hex(c as int / 16), Hex(c as int % 16)]
    else if c == '\U{2028}' || c == '\U{2029}' then "\\u202" + [Hex(c as int % 16)]
    else [c]
  }

  // Texts are written in front of what follows them, so that no proof has to regroup a concatenation.

  /** The escaped characters of `s`, then `tail`. */
  function EscapeAll(s: string, tail: string): string
  {
    if s == "" then tail else Escape(s[0]) + EscapeAll(s[1..], tail)
  }

  function Quote(s: string, tail: string): string
  {
    "\"" + EscapeAll(s, "\"" + tail)
  }

  lemma Cancel(p: string, q: string, r: string, s: string)
    requires |p| == |q| && p + r == q + s
    ensures p == q && r == s
  {
    assert p == (p + r)[..|p|] && q == (q + s)[..|q|];
    assert r == (p + r)[|p|..] && s == (q + s)[|q|..];
  }

  lemma HexIsExact(m: nat, n: nat)
    requires m < 16 && n < 16
    ensures Hex(m) == Hex(n) <==> m == n
  {
  }

  function HexValue(c: char): Option<nat>
  {
    if '0' <= c <= '9' then Some(c as nat - '0' as nat)
    else if 'a' <= c <= 'f' then Some(c as nat - 'a' as nat + 10)
    else if 'A' <= c <= 'F' then Some(c as nat - 'A' as nat + 10)
    else None
  }

  /** How a reader takes one character of a string (section 7 of RFC 8259). */
  function Unescape(e: string): Option<char>
  {
    if |e| == 1 then (if e[0] >= ' ' && e[0] != '"' && e[0] != '\\' then Some(e[0]) else None)
    else if |e| == 2 && e[0] == '\\' then
      if e[1] == '"' || e[1] == '\\' || e[1] == '/' then Some(e[1])
      else if e[1] == 'b' then Some('\U{8}')
      else if e[1] == 'f' then Some('\U{C}')
      else if e[1] == 'n' then Some('\n')
      else if e[1] == 'r' then Some('\r')
      else if e[1] == 't' then Some('\t')
      else None
    else if |e| == 6 && e[0] == '\\' && e[1] == 'u' then
      var a, b, c, d := HexValue(e[2]), HexValue(e[3]), HexValue(e[4]), HexValue(e[5]);
      if a.Some? && b.Some? && c.Some? && d.Some? then
        var code := ((a.value * 16 + b.value) * 16 + c.value) * 16 + d.value;
        if code < 0xD800 then Some(code as char) else None
      else None
    else None
  }

  lemma HexReadsBack(n: nat)
    requires n < 16
    ensures HexValue(Hex(n)) == Some(n)
  {
  }

  /** Every escape reads back as its character. */
  lemma EscapeReadsBack(c: char)
    ensures Unescape(Escape(c)) == Some(c)
  {
    if |Escape(c)| == 6 {
      HexReadsBack(c as int % 16);
      if NeedsCode(c) {
        HexReadsBack(c as int / 16);
      }
    }
  }

  lemma EscapeIsExact(c: char, d: char)
    requires Escape(c) == Escape(d)
    ensures c == d
  {
    if |Escape(c)| == 6 {
      HexIsExact(c as int % 16, d as int % 16);
      assert Escape(c)[2] == Escape(d)[2] && Escape(c)[4] == Escape(d)[4] && Escape(c)[5] == Escape(d)[5];
      if NeedsCode(c) {
        HexIsExact(c as int / 16, d as int / 16);
      }
    }
  }

  /** The first two characters give an escape's length. */
  lemma EscapeIsUnambiguous(c: char, d: char, r: string, s: string)
    requires Escape(c) + r == Escape(d) + s
    ensures c == d && r == s
  {
    var x, y := Escape(c) + r, Escape(d) + s;
    assert x[0] == Escape(c)[0] && y[0] == Escape(d)[0];
    assert |Escape(c)| > 1 ==> x[1] == Escape(c)[1];
    assert |Escape(d)| > 1 ==> y[1] == Escape(d)[1];
    Cancel(Escape(c), Escape(d), r, s);
    EscapeIsExact(c, d);
  }

  lemma QuotedBodyGoesOn(a: string, r: string)
    ensures var x := EscapeAll(a, "\"" + r); x != "" && (a == "" <==> x[0] == '"')
  {
  }

  lemma {:induction false} QuotedBodyIsUnambiguous(a: string, b: string, r: string, s: string)
    requires EscapeAll(a, "\"" + r) == EscapeAll(b, "\"" + s)
    ensures a == b && r == s
  {
    QuotedBodyGoesOn(a, r);
    QuotedBodyGoesOn(b, s);
    if a == "" {
      Cancel("\"", "\"", r, s);
    } else {
      EscapeIsUnambiguous(a[0], b[0], EscapeAll(a[1..], "\"" + r), EscapeAll(b[1..], "\"" + s));
      QuotedBodyIsUnambiguous(a[1..], b[1..], r, s);
      assert a == [a[0]] + a[1..] && b == [b[0]] + b[1..];
    }
  }

  lemma QuoteIsUnambiguous(a: string, b: string, r: string, s: string)
    requires Quote(a, r) == Quote(b, s)
    ensures a == b && r == s
  {
    Cancel("\"", "\"", EscapeAll(a, "\"" + r), EscapeAll(b, "\"" + s));
    QuotedBodyIsUnambiguous(a, b, r, s);
  }

  // ---------------------------------------------------------------------------
  // Numbers
  // ---------------------------------------------------------------------------

  predicate NumberChar(c: char)
  {
    '0' <= c <= '9' || c in "-+.eE"
  }

  /** Every JSON number is spelled with these characters and starts like this. */
  predicate Spelling(s: string)
  {
    s != "" && (s[0] == '-' || '0' <= s[0] <= '9') && forall i :: 0 <= i < |s| ==> NumberChar(s[i])
  }

  /** What may follow a value in a text. */
  predicate Ends(r: string)
  {
    r == "" || !NumberChar(r[0])
  }

  lemma LongerSpellingDiffers(a: string, b: string, r: string, s: string)
    requires |a| < |b| && Ends(r) && Spelling(b)
    ensures a + r != b + s
  {
    if |r| > 0 {
      assert (a + r)[|a|] == r[0] && (b + s)[|a|] == b[|a|];
    }
  }

  lemma SpellingIsUnambiguous(a: string, b: string, r: string, s: string)
    requires Spelling(a) && Spelling(b) && Ends(r) && Ends(s) && a + r == b + s
    ensures a == b && r == s
  {
    if |a| < |b| {
      LongerSpellingDiffers(a, b, r, s);
    } else if |b| < |a| {
      LongerSpellingDiffers(b, a, s, r);
    } else {
      Cancel(a, b, r, s);
    }
  }

  // ---------------------------------------------------------------------------
  // Documents
  // ---------------------------------------------------------------------------

  predicate Spelled(t: Tree)
  {
    match t
    case Num(s) => Spelling(s)
    case Arr(items) => forall i :: 0 <= i < |items| ==> Spelled(items[i])
    case Obj(ms) => forall i :: 0 <= i < |ms| ==> Spelled(ms[i].value)
    case _ => true
  }

  /** The compact text of `t`, then `tail`. */
  function Print(t: Tree, tail: string): string
    decreases t, 1
  {
    match t
    case Null => "null" + tail
    case Bool(b) => (if b then "true" else "false") + tail
    case Num(s) => s + tail
    case Str(s) => Quote(s, tail)
    case Arr(items) => "[" + PrintItems(t, 0, tail)
    case Obj(ms) => "{" + PrintMembers(t, 0, tail)
  }

  function Comma(from: nat): string
  {
    if from == 0 then "" else ","
  }

  function PrintItems(t: Tree, from: nat, tail: string): string
    requires t.Arr? && from <= |t.items|
    decreases t, 0, |t.items| - from
  {
    if from == |t.items| then "]" + tail else Comma(from) + Print(t.items[from], PrintItems(t, from + 1, tail))
  }

  function PrintMembers(t: Tree, from: nat, tail: string): string
    requires t.Obj? && from <= |t.members|
    decreases t, 0, |t.members| - from
  {
    if from == |t.members| then "}" + tail
    else
      var m := t.members[from];
      Comma(from) + Quote(m.name, ":" + Print(m.value, PrintMembers(t, from + 1, tail)))
  }

  function Written(t: Tree): string
  {
    Print(t, "")
  }

  /** The first character of a value's text, up to the spelling of numbers. */
  predicate StartsLike(t: Tree, c: char)
  {
    match t
    case Null => c == 'n'
    case Bool(b) => c == if b then 't' else 'f'
    case Num(_) => c == '-' || '0' <= c <= '9'
    case Str(_) => c == '"'
    case Arr(_) => c == '['
    case Obj(_) => c == '{'
  }

  lemma StartOfText(t: Tree, r: string)
    requires Spelled(t)
    ensures Print(t, r) != "" && StartsLike(t, Print(t, r)[0])
  {
  }

  /** A text has one reading: the printed value and what follows it are both determined. */
  lemma {:induction false} PrintIsUnambiguous(t: Tree, u: Tree, r: string, s: string)
    requires Spelled(t) && Spelled(u) && Ends(r) && Ends(s) && Print(t, r) == Print(u, s)
    ensures t == u && r == s
    decreases t, 1
  {
    StartOfText(t, r);
    StartOfText(u, s);
    match t {
      case Null =>
        Cancel("null", "null", r, s);
      case Bool(b) =>
        var word := if b then "true" else "false";
        Cancel(word, word, r, s);
      case Num(a) =>
        SpellingIsUnambiguous(a, u.spelling, r, s);
      case Str(a) =>
        QuoteIsUnambiguous(a, u.s, r, s);
      case Arr(items) =>
        Cancel("[", "[", PrintItems(t, 0, r), PrintItems(u, 0, s));
        ItemsAreUnambiguous(t, u, 0, r, s);
      case Obj(ms) =>
        Cancel("{", "{", PrintMembers(t, 0, r), PrintMembers(u, 0, s));
        MembersAreUnambiguous(t, u, 0, r, s);
    }
  }

  lemma ItemsGoOn(t: Tree, from: nat, r: string)
    requires t.Arr? && Spelled(t) && from <= |t.items|
    ensures var x := PrintItems(t, from, r); x != "" && (from < |t.items| <==> x[0] != ']') && (0 < from ==> Ends(x))
  {
    if from < |t.items| {
      StartOfText(t.items[from], PrintItems(t, from + 1, r));
    }
  }

  lemma {:induction false} ItemsAreUnambiguous(t: Tree, u: Tree, from: nat, r: string, s: string)
    requires t.Arr? && u.Arr? && Spelled(t) && Spelled(u)
    requires from <= |t.items| && from <= |u.items| && t.items[..from] == u.items[..from]
    requires PrintItems(t, from, r) == PrintItems(u, from, s)
    ensures t == u && r == s
    decreases t, 0, |t.items| - from
  {
    ItemsGoOn(t, from, r);
    ItemsGoOn(u, from, s);
    if from == |t.items| {
      Cancel("]", "]", r, s);
      assert t.items == t.items[..from] && u.items == u.items[..from];
    } else {
      var x, y := PrintItems(t, from + 1, r), PrintItems(u, from + 1, s);
      Cancel(Comma(from), Comma(from), Print(t.items[from], x), Print(u.items[from], y));
      ItemsGoOn(t, from + 1, r);
      ItemsGoOn(u, from + 1, s);
      PrintIsUnambiguous(t.items[from], u.items[from], x, y);
      OneMore(t.items, u.items, from);
      ItemsAreUnambiguous(t, u, from + 1, r, s);
    }
  }

  lemma OneMore<T>(a: seq<T>, b: seq<T>, n: nat)
    requires n < |a| && n < |b| && a[..n] == b[..n] && a[n] == b[n]
    ensures a[..n + 1] == b[..n + 1]
  {
    assert a[..n + 1] == a[..n] + [a[n]] && b[..n + 1] == b[..n] + [b[n]];
  }

  lemma NameIsUnambiguous(from: nat, a: string, b: string, p: string, q: string)
    requires Comma(from) + Quote(a, ":" + p) == Comma(from) + Quote(b, ":" + q)
    ensures a == b && p == q
  {
    Cancel(Comma(from), Comma(from), Quote(a, ":" + p), Quote(b, ":" + q));
    QuoteIsUnambiguous(a, b, ":" + p, ":" + q);
    Cancel(":", ":", p, q);
  }

  lemma MembersGoOn(t: Tree, from: nat, r: string)
    requires t.Obj? && from <= |t.members|
    ensures var x := PrintMembers(t, from, r);
            x != "" && (from < |t.members| <==> x[0] != '}') && (0 < from ==> Ends(x))
  {
  }

  lemma {:induction false} MembersAreUnambiguous(t: Tree, u: Tree, from: nat, r: string, s: string)
    requires t.Obj? && u.Obj? && Spelled(t) && Spelled(u)
    requires from <= |t.members| && from <= |u.members| && t.members[..from] == u.members[..from]
    requires PrintMembers(t, from, r) == PrintMembers(u, from, s)
    ensures t == u && r == s
    decreases t, 0, |t.members| - from
  {
    MembersGoOn(t, from, r);
    MembersGoOn(u, from, s);
    if from == |t.members| {
      Cancel("}", "}", r, s);
      assert t.members == t.members[..from] && u.members == u.members[..from];
    } else {
      var m, n := t.members[from], u.members[from];
      var x, y := PrintMembers(t, from + 1, r), PrintMembers(u, from + 1, s);
      var p, q := Print(m.value, x), Print(n.value, y);
      NameIsUnambiguous(from, m.name, n.name, p, q);
      MembersGoOn(t, from + 1, r);
      MembersGoOn(u, from + 1, s);
      PrintIsUnambiguous(m.value, n.value, x, y);
      OneMore(t.members, u.members, from);
      MembersAreUnambiguous(t, u, from + 1, r, s);
    }
  }

  // ---------------------------------------------------------------------------
  // Decoding: objects become maps, and a repeated name keeps its last value
  // ---------------------------------------------------------------------------

  function Decoded(t: Tree): Value
    decreases t, 1
  {
    match t
    case Null => VNull
    case Bool(b) => VBool(b)
    case Num(s) => VNum(s)
    case Str(s) => VStr(s)
    case Arr(items) => VArr(seq(|items|, i requires 0 <= i < |items| => Decoded(items[i])))
    case Obj(ms) => VObj(DecodedMembers(t, |ms|))
  }

  function DecodedMembers(t: Tree, count: nat): map<string, Value>
    requires t.Obj? && count <= |t.members|
    decreases t, 0, count
  {
    if count == 0 then map[]
    else DecodedMembers(t, count - 1)[t.members[count - 1].name := Decoded(t.members[count - 1].value)]
  }

  lemma {:induction false} DecodedMembersAre(t: Tree, count: nat)
    requires t.Obj? && count <= |t.members|
    requires forall i, j :: 0 <= i < j < |t.members| ==> t.members[i].name != t.members[j].name
    ensures forall i :: 0 <= i < count ==> t.members[i].name in DecodedMembers(t, count)
    ensures forall i :: 0 <= i < count ==> DecodedMembers(t, count)[t.members[i].name] == Decoded(t.members[i].value)
    ensures forall name :: name in DecodedMembers(t, count) ==> exists i :: 0 <= i < count && t.members[i].name == name
    decreases count
  {
    if count > 0 {
      DecodedMembersAre(t, count - 1);
    }
  }

  // ---------------------------------------------------------------------------
  // Equality of documents whose objects are unordered
  // ---------------------------------------------------------------------------

  predicate Same(t: Tree, u: Tree)
    decreases t, 1
  {
    match (t, u)
    case (Arr(xs), Arr(ys)) => |xs| == |ys| && forall i :: 0 <= i < |xs| ==> Same(xs[i], ys[i])
    case (Obj(ms), Obj(ns)) =>
      && (forall i :: 0 <= i < |ms| ==> SomeMemberMatches(t, i, u))
      && (forall j :: 0 <= j < |ns| ==> HasName(t, ns[j].name))
    case (_, _) => t == u
  }

  predicate SomeMemberMatches(t: Tree, i: nat, u: Tree)
    requires t.Obj? && u.Obj? && i < |t.members|
    decreases t, 0
  {
    exists j :: 0 <= j < |u.members| && u.members[j].name == t.members[i].name &&
      Same(t.members[i].value, u.members[j].value)
  }

  /** Decoding forgets member order and nothing else. */
  lemma {:induction false} DecodedIsExact(t: Tree, u: Tree)
    requires UniqueNames(t) && UniqueNames(u)
    ensures Decoded(t) == Decoded(u) <==> Same(t, u)
    decreases t, 1
  {
    match (t, u)
    case (Arr(xs), Arr(ys)) =>
      if |xs| == |ys| {
        forall i | 0 <= i < |xs| ensures Decoded(xs[i]) == Decoded(ys[i]) <==> Same(xs[i], ys[i]) {
          DecodedIsExact(xs[i], ys[i]);
        }
        if Decoded(t) == Decoded(u) {
          forall i | 0 <= i < |xs| ensures Same(xs[i], ys[i]) {
            assert Decoded(t).items[i] == Decoded(xs[i]) && Decoded(u).items[i] == Decoded(ys[i]);
          }
        }
      }
    case (Obj(ms), Obj(ns)) =>
      DecodedObjectsAreExact(t, u);
    case (_, _) =>
  }

  lemma {:induction false} DecodedObjectsAreExact(t: Tree, u: Tree)
    requires t.Obj? && u.Obj? && UniqueNames(t) && UniqueNames(u)
    ensures Decoded(t) == Decoded(u) <==> Same(t, u)
    decreases t, 0
  {
    assert MembersDecodeExactly(t, u) by {
      forall i, j | 0 <= i < |t.members| && 0 <= j < |u.members|
        ensures Decoded(t.members[i].value) == Decoded(u.members[j].value) <==>
            Same(t.members[i].value, u.members[j].value)
      {
        DecodedIsExact(t.members[i].value, u.members[j].value);
      }
    }
    DecodesToItsMap(t);
    DecodesToItsMap(u);
    if Same(t, u) {
      SameObjectsDecodeAlike(t, u);
    }
    if Decoded(t) == Decoded(u) {
      AlikeDecodedAreSame(t, u);
    }
  }

  ghost predicate MembersDecodeExactly(t: Tree, u: Tree)
    requires t.Obj? && u.Obj?
  {
    forall i, j :: 0 <= i < |t.members| && 0 <= j < |u.members| ==>
      (Decoded(t.members[i].value) == Decoded(u.members[j].value) <==> Same(t.members[i].value, u.members[j].value))
  }

  ghost predicate DecodesTo(t: Tree, f: map<string, Value>)
    requires t.Obj?
  {
    && (forall i ::
         0 <= i < |t.members| ==> t.members[i].name in f && f[t.members[i].name] == Decoded(t.members[i].value))
    && (forall name :: name in f ==> HasName(t, name))
  }

  lemma DecodesToItsMap(t: Tree)
    requires t.Obj? && UniqueNames(t)
    ensures DecodesTo(t, DecodedMembers(t, |t.members|))
  {
    DecodedMembersAre(t, |t.members|);
  }

  lemma SameObjectsDecodeAlike(t: Tree, u: Tree)
    requires t.Obj? && u.Obj? && Same(t, u) && MembersDecodeExactly(t, u)
    requires DecodesTo(t, DecodedMembers(t, |t.members|)) && DecodesTo(u, DecodedMembers(u, |u.members|))
    ensures Decoded(t) == Decoded(u)
  {
    var f, g := DecodedMembers(t, |t.members|), DecodedMembers(u, |u.members|);
    forall name | name in f ensures name in g && f[name] == g[name] {
      assert HasName(t, name);
      var i :| 0 <= i < |t.members| && t.members[i].name == name;
      assert SomeMemberMatches(t, i, u);
    }
    forall name | name in g ensures name in f {
      assert HasName(u, name);
      var j :| 0 <= j < |u.members| && u.members[j].name == name;
      assert HasName(t, name);
    }
    assert f == g;
  }

  lemma AlikeDecodedAreSame(t: Tree, u: Tree)
    requires t.Obj? && u.Obj? && Decoded(t) == Decoded(u) && MembersDecodeExactly(t, u)
    requires DecodesTo(t, DecodedMembers(t, |t.members|)) && DecodesTo(u, DecodedMembers(u, |u.members|))
    ensures Same(t, u)
  {
    var f := DecodedMembers(t, |t.members|);
    assert f == DecodedMembers(u, |u.members|);
    forall i | 0 <= i < |t.members| ensures SomeMemberMatches(t, i, u) {
      assert HasName(u, t.members[i].name);
      var j :| 0 <= j < |u.members| && u.members[j].name == t.members[i].name;
      assert Decoded(t.members[i].value) == Decoded(u.members[j].value);
    }
    forall j | 0 <= j < |u.members| ensures HasName(t, u.members[j].name) {
      assert u.members[j].name in f;
    }
  }

  // ---------------------------------------------------------------------------
  // Writing members in key order
  // ---------------------------------------------------------------------------

  ghost predicate IsLeast(least: string, names: set<string>)
  {
    least in names && forall n :: n in names ==> n == least || Less(least, n)
  }

  lemma {:induction false} LeastExists(names: set<string>)
    requires names != {}
    ensures exists least :: IsLeast(least, names)
  {
    var one :| one in names;
    var others := names - {one};
    if others == {} {
      assert names == {one};
      assert IsLeast(one, names);
    } else {
      LeastExists(others);
      var best :| IsLeast(best, others);
      LeastOfMore(one, best, others);
      assert names == others + {one};
    }
  }

  lemma LeastOfMore(one: string, best: string, others: set<string>)
    requires IsLeast(best, others) && one !in others
    ensures exists least :: IsLeast(least, others + {one})
  {
    LessTotal(one, best);
    if Less(one, best) {
      forall n | n in others ensures Less(one, n) {
        if n != best {
          LessTransitive(one, best, n);
        }
      }
      assert IsLeast(one, others + {one});
    } else {
      assert IsLeast(best, others + {one});
    }
  }

  ghost function SortedNames(names: set<string>): (r: seq<string>)
    ensures forall n :: n in r <==> n in names
    ensures forall i, j :: 0 <= i < j < |r| ==> Less(r[i], r[j])
  {
    if names == {} then []
    else
      LeastExists(names);
      var least :| IsLeast(least, names);
      [least] + SortedNames(names - {least})
  }

  /** The document the encoder prints for a decoded value. */
  ghost function Ordered(v: Value): Tree
  {
    match v
    case VNull => Null
    case VBool(b) => Bool(b)
    case VNum(s) => Num(s)
    case VStr(s) => Str(s)
    case VArr(items) => Arr(seq(|items|, i requires 0 <= i < |items| => Ordered(items[i])))
    case VObj(ms) =>
      var names := SortedNames(ms.Keys);
      Obj(seq(|names|, i requires 0 <= i < |names| => Member(names[i], Ordered(ms[names[i]]))))
  }

  ghost predicate KeysInOrder(t: Tree)
  {
    match t
    case Obj(ms) =>
      && (forall i, j :: 0 <= i < j < |ms| ==> Less(ms[i].name, ms[j].name))
      && (forall i :: 0 <= i < |ms| ==> KeysInOrder(ms[i].value))
    case Arr(items) => forall i :: 0 <= i < |items| ==> KeysInOrder(items[i])
    case _ => true
  }

  /** Ordering a value and decoding it again is the identity; the ordered document has its keys
      sorted, hence unique, at every level. */
  lemma {:induction false} OrderedRoundTrip(v: Value)
    ensures Decoded(Ordered(v)) == v && KeysInOrder(Ordered(v)) && UniqueNames(Ordered(v))
  {
    match v
    case VArr(items) =>
      forall i | 0 <= i < |items|
        ensures Decoded(Ordered(items[i])) == items[i] && KeysInOrder(Ordered(items[i])) &&
            UniqueNames(Ordered(items[i]))
      {
        OrderedRoundTrip(items[i]);
      }
      assert Decoded(Ordered(v)).items == items;
    case VObj(ms) =>
      forall name | name in ms
        ensures Decoded(Ordered(ms[name])) == ms[name] && KeysInOrder(Ordered(ms[name])) &&
            UniqueNames(Ordered(ms[name]))
      {
        OrderedRoundTrip(ms[name]);
      }
      OrderedObject(v);
    case _ =>
  }

  lemma OrderedObject(v: Value)
    requires v.VObj?
    requires forall name :: name in v.members ==>
      Decoded(Ordered(v.members[name])) == v.members[name] && KeysInOrder(Ordered(v.members[name])) &&
        UniqueNames(Ordered(v.members[name]))
    ensures Decoded(Ordered(v)) == v && KeysInOrder(Ordered(v)) && UniqueNames(Ordered(v))
  {
    var t := Ordered(v);
    var names := SortedNames(v.members.Keys);
    forall i, j | 0 <= i < j < |names| ensures names[i] != names[j] {
      LessAsymmetric(names[i], names[j]);
    }
    forall i | 0 <= i < |names|
      ensures t.members[i].name == names[i] && names[i] in v.members &&
          Decoded(t.members[i].value) == v.members[names[i]]
      ensures KeysInOrder(t.members[i].value) && UniqueNames(t.members[i].value)
    {
      assert names[i] in names;
    }
    DecodesBack(t, names, v.members);
  }

  lemma DecodesBack(t: Tree, names: seq<string>, members: map<string, Value>)
    requires t.Obj? && |names| == |t.members| && (forall n :: n in names <==> n in members)
    requires forall i, j :: 0 <= i < j < |names| ==> names[i] != names[j]
    requires forall i :: 0 <= i < |names| ==>
      t.members[i].name == names[i] && names[i] in members && Decoded(t.members[i].value) == members[names[i]]
    ensures Decoded(t) == VObj(members)
  {
    DecodedMembersAre(t, |names|);
    var f := DecodedMembers(t, |names|);
    forall name | name in members ensures name in f && f[name] == members[name] {
      var i :| 0 <= i < |names| && names[i] == name;
      assert t.members[i].name == name;
    }
    assert f == members;
  }

  lemma {:induction false} OrderedKeepsSpelling(t: Tree)
    requires Spelled(t)
    ensures Spelled(Ordered(Decoded(t)))
  {
    match t
    case Arr(items) =>
      forall i | 0 <= i < |items| ensures Spelled(Ordered(Decoded(items[i]))) {
        OrderedKeepsSpelling(items[i]);
      }
    case Obj(ms) =>
      forall i | 0 <= i < |ms| ensures Spelled(Ordered(Decoded(ms[i].value))) {
        OrderedKeepsSpelling(ms[i].value);
      }
      DecodedValuesAreMembers(t, |ms|);
      var v := Decoded(t);
      var names := SortedNames(v.members.Keys);
      forall k | 0 <= k < |names| ensures Spelled(Ordered(v.members[names[k]])) {
        var name := names[k];
        assert name in DecodedMembers(t, |ms|);
        var i :| 0 <= i < |ms| && DecodedMembers(t, |ms|)[name] == Decoded(ms[i].value);
      }
    case _ =>
  }

  lemma {:induction false} DecodedValuesAreMembers(t: Tree, count: nat)
    requires t.Obj? && count <= |t.members|
    ensures forall name :: name in DecodedMembers(t, count) ==>
      exists i :: 0 <= i < count && DecodedMembers(t, count)[name] == Decoded(t.members[i].value)
    decreases count
  {
    if count > 0 {
      DecodedValuesAreMembers(t, count - 1);
    }
  }

  // ---------------------------------------------------------------------------
  // Canonical text
  // ---------------------------------------------------------------------------

  ghost function CanonicalText(t: Tree): string
  {
    Written(Ordered(Decoded(t)))
  }

  /** Canonical texts are equal exactly when the documents are equal up to member order. */
  lemma CanonicalTextIsExact(t: Tree, u: Tree)
    requires UniqueNames(t) && UniqueNames(u) && Spelled(t) && Spelled(u)
    ensures CanonicalText(t) == CanonicalText(u) <==> Same(t, u)
  {
    DecodedIsExact(t, u);
    if CanonicalText(t) == CanonicalText(u) {
      OrderedKeepsSpelling(t);
      OrderedKeepsSpelling(u);
      PrintIsUnambiguous(Ordered(Decoded(t)), Ordered(Decoded(u)), "", "");
      OrderedRoundTrip(Decoded(t));
      OrderedRoundTrip(Decoded(u));
    }
  }

  /** A canonical text is that of a key-ordered document, and canonicalizing whatever document
      it reads as gives the same text again. */
  lemma CanonicalTextIsStable(t: Tree, again: Tree)
    requires Spelled(t) && Spelled(again) && Written(again) == CanonicalText(t)
    ensures CanonicalText(again) == CanonicalText(t) && KeysInOrder(again) && UniqueNames(again)
  {
    OrderedKeepsSpelling(t);
    PrintIsUnambiguous(again, Ordered(Decoded(t)), "", "");
    OrderedRoundTrip(Decoded(t));
  }
}
