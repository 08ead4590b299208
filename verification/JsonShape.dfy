/** The strict shape check that runs before decoding: one pass over the token stream. */
module JsonShape {
  import opened Text
  import opened Json

  /** Decoder tokens; object keys and string values are both `Word`. */
  datatype Token = BeginObject | EndObject | BeginArray | EndArray | Word(s: string) | Scalar

  function Tokens(t: Tree): (ts: seq<Token>)
    ensures |ts| > 0 && ts[0] != EndObject && ts[0] != EndArray
    decreases t, 1
  {
    match t
    case Str(s) => [Word(s)]
    case Arr(items) => [BeginArray] + ItemTokens(t, 0) + [EndArray]
    case Obj(members) => [BeginObject] + MemberTokens(t, 0) + [EndObject]
    case _ => [Scalar]
  }

  function ItemTokens(t: Tree, from: nat): seq<Token>
    requires t.Arr? && from <= |t.items|
    decreases t, 0, |t.items| - from
  {
    if from == |t.items| then [] else Tokens(t.items[from]) + ItemTokens(t, from + 1)
  }

  function MemberTokens(t: Tree, from: nat): seq<Token>
    requires t.Obj? && from <= |t.members|
    decreases t, 0, |t.members| - from
  {
    if from == |t.members| then []
    else [Word(t.members[from].name)] + Tokens(t.members[from].value) + MemberTokens(t, from + 1)
  }

  // ---------------------------------------------------------------------------
  // Vocabulary
  // ---------------------------------------------------------------------------

  const ACTOR := "audit.attribution.actor_profile"
  const EFFECTIVE_ACTOR := "audit.attribution.effective_actor_profile"
  const CONTACTS := "indexing_config.contacts"
  const CONTACT := "indexing_config.contacts[]"
  const OPAQUE := "\U{0000}"
  const PROFILE := ["availability", "name", "avatar_url", "email", "username"]

  const AUDIT_NAMES := [
    "event_id", "publisher", "occurred_at", "resource_revision", "origin", "attribution", "scope", "content"]
  const CONTACT_NAMES := ["lfx_principal", "name", "emails", "bot", "profile"]

  const FIELDS: map<string, seq<string>> := map[
    "" := ["schema_version", "audit", "action", "headers", "data", "tags", "indexing_config"],
    "audit" := AUDIT_NAMES,
    "audit.attribution" := ["actor_ref", "effective_actor_ref", "actor_profile", "effective_actor_profile"],
    ACTOR := PROFILE,
    EFFECTIVE_ACTOR := PROFILE,
    "audit.scope" := ["before", "after"],
    "audit.content" := ["schema", "representation", "before", "after"],
    "indexing_config" := ["object_id", "public", "access_check_object", "access_check_relation", "history_check_object",
                          "history_check_relation", "sort_name", "name_and_aliases", "parent_refs", "tags",
                          "fulltext", "contacts"],
    CONTACT := CONTACT_NAMES]

  function ChildPath(path: string, key: string): string
  {
    if path !in FIELDS then OPAQUE
    else
      var next := if path == "" then key else path + "." + key;
      if next in FIELDS || next == CONTACTS then next else OPAQUE
  }

  /** Where each fixed object sits in the message: by its parent's path and its member name. */
  function Nested(path: string, key: string): Option<string>
  {
    if path == "" then
      if key == "audit" then Some("audit")
      else if key == "indexing_config" then Some("indexing_config")
      else None
    else if path == "audit" then
      if key == "attribution" then Some("audit.attribution")
      else if key == "scope" then Some("audit.scope")
      else if key == "content" then Some("audit.content")
      else None
    else if path == "audit.attribution" then
      if key == "actor_profile" then Some(ACTOR)
      else if key == "effective_actor_profile" then Some(EFFECTIVE_ACTOR)
      else None
    else if path == "indexing_config" && key == "contacts" then Some(CONTACTS)
    else None
  }

  lemma JoinedParts(path: string, key: string, whole: string, n: nat)
    requires '.' !in key && path + "." + key == whole
    requires n < |whole| && whole[n] == '.' && forall i :: n < i < |whole| ==> whole[i] != '.'
    ensures path == whole[..n] && key == whole[n + 1..]
  {
    assert whole[|path|] == '.';
    assert forall i :: |path| < i < |whole| ==> whole[i] == key[i - |path| - 1];
    assert n == |path|;
  }

  lemma NestedParts(path: string, key: string, next: string)
    requires path != "" && key != "" && '.' !in key && '[' !in key && next == path + "." + key
    requires next in FIELDS || next == CONTACTS
    ensures Nested(path, key) == Some(next)
  {
    FixedPaths(next);
    assert next[|path|] == '.' && next[|path| + 1..] == key;
    if next == "audit.attribution" || next == "audit.scope" || next == "audit.content" {
      AuditParts(path, key, next);
    } else if next == ACTOR || next == EFFECTIVE_ACTOR {
      ProfileParts(path, key, next);
    } else if next == CONTACTS {
      JoinedParts(path, key, next, 15);
      assert next[..15] == "indexing_config" && next[16..] == "contacts";
    } else {
      ContactIsNoMember(path, key);
    }
  }

  lemma ContactIsNoMember(path: string, key: string)
    requires key != "" && '.' !in key && '[' !in key
    ensures path + "." + key != CONTACT
  {
    var next := path + "." + key;
    assert forall i :: |path| < i < |next| ==> next[i] == key[i - |path| - 1];
    assert next[|path|] == '.';
    assert |CONTACT| == 26 && CONTACT[24] == '[' && CONTACT[25] == ']';
  }

  lemma FixedPaths(next: string)
    requires next in FIELDS || next == CONTACTS
    ensures || next == "" || next == "audit" || next == "indexing_config"
            || next == "audit.attribution" || next == "audit.scope" || next == "audit.content"
            || next == ACTOR || next == EFFECTIVE_ACTOR || next == CONTACTS || next == CONTACT
  {
  }

  lemma AuditParts(path: string, key: string, next: string)
    requires '.' !in key && next == path + "." + key
    requires next == "audit.attribution" || next == "audit.scope" || next == "audit.content"
    ensures Nested(path, key) == Some(next)
  {
    JoinedParts(path, key, next, 5);
    assert next[..5] == "audit";
    assert "audit.attribution"[6..] == "attribution";
    assert "audit.scope"[6..] == "scope" && "audit.content"[6..] == "content";
  }

  lemma ProfileParts(path: string, key: string, next: string)
    requires '.' !in key && next == path + "." + key
    requires next == ACTOR || next == EFFECTIVE_ACTOR
    ensures Nested(path, key) == Some(next)
  {
    JoinedParts(path, key, next, 17);
    assert next[..17] == "audit.attribution";
    assert ACTOR[18..] == "actor_profile" && EFFECTIVE_ACTOR[18..] == "effective_actor_profile";
  }

  lemma AuditJoins(key: string)
    requires Nested("audit", key).Some?
    ensures Nested("audit", key).value == "audit" + "." + key && Nested("audit", key).value in FIELDS
  {
    assert "audit" + "." + "attribution" == "audit.attribution";
    assert "audit" + "." + "scope" == "audit.scope";
    assert "audit" + "." + "content" == "audit.content";
  }

  lemma AttributionJoins(key: string)
    requires Nested("audit.attribution", key).Some?
    ensures var next := Nested("audit.attribution", key).value;
            next == "audit.attribution" + "." + key && next in FIELDS
  {
    assert "audit.attribution" + "." + "actor_profile" == ACTOR;
    assert "audit.attribution" + "." + "effective_actor_profile" == EFFECTIVE_ACTOR;
  }

  lemma NestedJoins(path: string, key: string)
    requires path != "" && Nested(path, key).Some?
    ensures Nested(path, key).value == path + "." + key && path in FIELDS
    ensures Nested(path, key).value in FIELDS || Nested(path, key).value == CONTACTS
  {
    if path == "audit" {
      AuditJoins(key);
    } else if path == "indexing_config" {
      assert "indexing_config" + "." + "contacts" == CONTACTS;
    } else {
      AttributionJoins(key);
    }
  }

  /** The vocabulary nests exactly as the table says: a plain member name leads to the listed path, and
      anywhere else to the opaque one. */
  lemma VocabularyNests(path: string, key: string)
    requires key != "" && '.' !in key && '[' !in key
    ensures ChildPath(path, key) == match Nested(path, key) case Some(next) => next case None => OPAQUE
  {
    if path == "" {
      RootMembers(key);
    } else {
      var next := path + "." + key;
      if next in FIELDS || next == CONTACTS {
        NestedParts(path, key, next);
      }
      if Nested(path, key).Some? {
        NestedJoins(path, key);
      }
    }
  }

  lemma RootMembers(key: string)
    requires key != "" && '.' !in key
    ensures key in FIELDS || key == CONTACTS <==> key == "audit" || key == "indexing_config"
  {
    assert "audit.attribution"[5] == '.' && ACTOR[5] == '.' && EFFECTIVE_ACTOR[5] == '.' && CONTACTS[15] == '.';
    assert "audit.scope"[5] == '.' && "audit.content"[5] == '.' && CONTACT[15] == '.';
  }

  function ItemPath(path: string): string
  {
    if path == CONTACTS then CONTACT else OPAQUE
  }

  predicate IsProfile(path: string)
  {
    path == ACTOR || path == EFFECTIVE_ACTOR
  }

  // ---------------------------------------------------------------------------
  // Specification on trees
  // ---------------------------------------------------------------------------

  /** Section 4 of RFC 8259: names within an object should be unique. */
  predicate UniqueNames(t: Tree)
  {
    match t
    case Obj(ms) =>
      && (forall i, j :: 0 <= i < j < |ms| ==> ms[i].name != ms[j].name)
      && (forall i :: 0 <= i < |ms| ==> UniqueNames(ms[i].value))
    case Arr(items) => forall i :: 0 <= i < |items| ==> UniqueNames(items[i])
    case _ => true
  }

  predicate NestsAtMost(t: Tree, n: int)
  {
    n >= 0 &&
    match t
    case Obj(ms) => forall i :: 0 <= i < |ms| ==> NestsAtMost(ms[i].value, n - 1)
    case Arr(items) => forall i :: 0 <= i < |items| ==> NestsAtMost(items[i], n - 1)
    case _ => true
  }

  predicate UsesVocabulary(t: Tree, path: string)
  {
    match t
    case Obj(ms) => forall i :: 0 <= i < |ms| ==>
      (path in FIELDS ==> ms[i].name in FIELDS[path]) && UsesVocabulary(ms[i].value, ChildPath(path, ms[i].name))
    case Arr(items) => forall i :: 0 <= i < |items| ==> UsesVocabulary(items[i], ItemPath(path))
    case _ => true
  }

  predicate HasName(t: Tree, name: string)
    requires t.Obj?
  {
    exists i :: 0 <= i < |t.members| && t.members[i].name == name
  }

  predicate CompleteProfiles(t: Tree, path: string)
  {
    match t
    case Obj(ms) =>
      && (IsProfile(path) ==> forall k :: 0 <= k < |PROFILE| ==> HasName(t, PROFILE[k]))
      && (forall i :: 0 <= i < |ms| ==> CompleteProfiles(ms[i].value, ChildPath(path, ms[i].name)))
    case Arr(items) => forall i :: 0 <= i < |items| ==> CompleteProfiles(items[i], ItemPath(path))
    case _ => true
  }

  predicate WellShaped(t: Tree, path: string, depth: nat)
  {
    UniqueNames(t) && NestsAtMost(t, 64 - depth) && UsesVocabulary(t, path) && CompleteProfiles(t, path)
  }

  /** Below an opaque path only uniqueness and depth are checked. */
  lemma {:induction false} OpaqueIsNeverVocabularyChecked(t: Tree)
    ensures UsesVocabulary(t, OPAQUE) && CompleteProfiles(t, OPAQUE)
  {
    assert OPAQUE !in FIELDS && OPAQUE != CONTACTS && !IsProfile(OPAQUE);
    match t
    case Obj(ms) =>
      forall i | 0 <= i < |ms| ensures UsesVocabulary(ms[i].value, OPAQUE) && CompleteProfiles(ms[i].value, OPAQUE) {
        OpaqueIsNeverVocabularyChecked(ms[i].value);
      }
    case Arr(items) =>
      forall i | 0 <= i < |items| ensures UsesVocabulary(items[i], OPAQUE) && CompleteProfiles(items[i], OPAQUE) {
        OpaqueIsNeverVocabularyChecked(items[i]);
      }
    case _ =>
  }

  /** `t` is an object with a member `name` of value `v`. */
  predicate HasMember(t: Tree, name: string, v: Tree)
  {
    t.Obj? && exists i :: 0 <= i < |t.members| && t.members[i] == Member(name, v)
  }

  predicate NamesAmong(t: Tree, names: seq<string>)
  {
    t.Obj? ==> forall i :: 0 <= i < |t.members| ==> t.members[i].name in names
  }

  /** Everything the rules say of `t` at `path`. */
  predicate Checked(t: Tree, path: string)
  {
    UsesVocabulary(t, path) && CompleteProfiles(t, path)
  }

  lemma MemberIsChecked(t: Tree, path: string, name: string, v: Tree)
    requires HasMember(t, name, v) && Checked(t, path)
    ensures Checked(v, ChildPath(path, name))
  {
    var i :| 0 <= i < |t.members| && t.members[i] == Member(name, v);
    assert t.members[i].value == v;
  }

  lemma NestedIsChecked(t: Tree, path: string, name: string, v: Tree, next: string)
    requires HasMember(t, name, v) && Checked(t, path) && name != "" && '.' !in name && '[' !in name
    requires Nested(path, name) == Some(next)
    ensures Checked(v, next)
  {
    VocabularyNests(path, name);
    MemberIsChecked(t, path, name, v);
  }

  lemma NamesAreFixed(t: Tree, path: string, names: seq<string>)
    requires Checked(t, path) && path in FIELDS && FIELDS[path] == names
    ensures NamesAmong(t, names)
  {
  }

  /** What the rules come to for a whole message: the names of its audit object are from the audit list. */
  lemma AuditNamesAreFixed(t: Tree, audit: Tree)
    requires Checked(t, "") && HasMember(t, "audit", audit)
    ensures Checked(audit, "audit") && NamesAmong(audit, AUDIT_NAMES)
  {
    NestedIsChecked(t, "", "audit", audit, "audit");
    NamesAreFixed(audit, "audit", AUDIT_NAMES);
  }

  /** The names of each contact are from the contact list. */
  lemma ContactNamesAreFixed(t: Tree, config: Tree, contacts: Tree, k: nat)
    requires Checked(t, "") && HasMember(t, "indexing_config", config) && HasMember(config, "contacts", contacts)
    requires contacts.Arr? && k < |contacts.items|
    ensures NamesAmong(contacts.items[k], CONTACT_NAMES)
  {
    NestedIsChecked(t, "", "indexing_config", config, "indexing_config");
    NestedIsChecked(config, "indexing_config", "contacts", contacts, CONTACTS);
    assert Checked(contacts.items[k], CONTACT);
    NamesAreFixed(contacts.items[k], CONTACT, CONTACT_NAMES);
  }

  lemma ProfileIsChecked(t: Tree, audit: Tree, attribution: Tree, name: string, profile: Tree)
    requires Checked(t, "") && HasMember(t, "audit", audit) && HasMember(audit, "attribution", attribution)
    requires HasMember(attribution, name, profile) && (name == "actor_profile" || name == "effective_actor_profile")
    ensures Checked(profile, if name == "actor_profile" then ACTOR else EFFECTIVE_ACTOR)
  {
    AttributionIsChecked(t, audit, attribution);
    ProfileNests(name);
    var path := if name == "actor_profile" then ACTOR else EFFECTIVE_ACTOR;
    NestedIsChecked(attribution, "audit.attribution", name, profile, path);
  }

  lemma ProfileNests(name: string)
    requires name == "actor_profile" || name == "effective_actor_profile"
    ensures name != "" && '.' !in name && '[' !in name
    ensures Nested("audit.attribution", name) == Some(if name == "actor_profile" then ACTOR else EFFECTIVE_ACTOR)
  {
  }

  lemma AttributionIsChecked(t: Tree, audit: Tree, attribution: Tree)
    requires Checked(t, "") && HasMember(t, "audit", audit) && HasMember(audit, "attribution", attribution)
    ensures Checked(attribution, "audit.attribution")
  {
    AuditNamesAreFixed(t, audit);
    NestedIsChecked(audit, "audit", "attribution", attribution, "audit.attribution");
  }

  /** Both actor profiles have exactly the profile names, each of them. */
  lemma ProfilesAreComplete(t: Tree, audit: Tree, attribution: Tree, name: string, profile: Tree)
    requires Checked(t, "") && HasMember(t, "audit", audit) && HasMember(audit, "attribution", attribution)
    requires HasMember(attribution, name, profile) && (name == "actor_profile" || name == "effective_actor_profile")
    requires profile.Obj?
    ensures NamesAmong(profile, PROFILE) && forall k :: 0 <= k < |PROFILE| ==> HasName(profile, PROFILE[k])
  {
    ProfileIsChecked(t, audit, attribution, name, profile);
    NamesAreFixed(profile, if name == "actor_profile" then ACTOR else EFFECTIVE_ACTOR, PROFILE);
  }

  // One level of the specification, as the loops see it

  predicate MemberOk(t: Tree, i: nat, path: string, depth: nat)
    requires t.Obj? && i < |t.members|
  {
    && (forall j :: 0 <= j < i ==> t.members[j].name != t.members[i].name)
    && (path in FIELDS ==> t.members[i].name in FIELDS[path])
    && WellShaped(t.members[i].value, ChildPath(path, t.members[i].name), depth + 1)
  }

  lemma ObjectLevel(t: Tree, path: string, depth: nat)
    requires t.Obj? && depth <= 64
    ensures WellShaped(t, path, depth) <==>
              && (forall i :: 0 <= i < |t.members| ==> MemberOk(t, i, path, depth))
              && (IsProfile(path) ==> forall k :: 0 <= k < |PROFILE| ==> HasName(t, PROFILE[k]))
  {
    if WellShaped(t, path, depth) {
      forall i | 0 <= i < |t.members| ensures MemberOk(t, i, path, depth) {
        assert NestsAtMost(t.members[i].value, 64 - depth - 1);
      }
    }
    if forall i :: 0 <= i < |t.members| ==> MemberOk(t, i, path, depth) {
      forall i, j | 0 <= i < j < |t.members| ensures t.members[i].name != t.members[j].name {
        assert MemberOk(t, j, path, depth);
      }
      forall i | 0 <= i < |t.members|
        ensures UniqueNames(t.members[i].value) && NestsAtMost(t.members[i].value, 64 - depth - 1)
      {
        assert MemberOk(t, i, path, depth);
      }
      forall i | 0 <= i < |t.members|
        ensures path in FIELDS ==> t.members[i].name in FIELDS[path]
        ensures UsesVocabulary(t.members[i].value, ChildPath(path, t.members[i].name))
        ensures CompleteProfiles(t.members[i].value, ChildPath(path, t.members[i].name))
      {
        assert MemberOk(t, i, path, depth);
      }
      assert UniqueNames(t) && NestsAtMost(t, 64 - depth) && UsesVocabulary(t, path);
    }
  }

  predicate ItemOk(t: Tree, i: nat, path: string, depth: nat)
    requires t.Arr? && i < |t.items|
  {
    WellShaped(t.items[i], ItemPath(path), depth + 1)
  }

  lemma ArrayLevel(t: Tree, path: string, depth: nat)
    requires t.Arr? && depth <= 64
    ensures WellShaped(t, path, depth) <==> forall i :: 0 <= i < |t.items| ==> ItemOk(t, i, path, depth)
  {
    if forall i :: 0 <= i < |t.items| ==> ItemOk(t, i, path, depth) {
      forall i | 0 <= i < |t.items|
        ensures UniqueNames(t.items[i]) && NestsAtMost(t.items[i], 64 - depth - 1)
        ensures UsesVocabulary(t.items[i], ItemPath(path)) && CompleteProfiles(t.items[i], ItemPath(path))
      {
        assert ItemOk(t, i, path, depth);
      }
    }
  }

  /** An element stream goes on exactly while it does not start with a closing token. */
  lemma ItemTokensGoOn(t: Tree, i: nat, tail: seq<Token>)
    requires t.Arr? && i <= |t.items|
    ensures var ts := ItemTokens(t, i) + [EndArray] + tail;
            && ts != [] && (i < |t.items| <==> ts[0] != EndObject && ts[0] != EndArray)
            && (i == |t.items| ==> ts == [EndArray] + tail)
  {
  }

  lemma TooDeepIsRefused(t: Tree, path: string, depth: nat)
    requires depth > 64
    ensures !WellShaped(t, path, depth)
  {
  }

  ghost function NamesBefore(t: Tree, i: nat): set<string>
    requires t.Obj? && i <= |t.members|
  {
    set j | 0 <= j < i :: t.members[j].name
  }

  /** A member stream that starts with a closing token has no members left. */
  lemma MemberTokensGoOn(t: Tree, i: nat, tail: seq<Token>)
    requires t.Obj? && i <= |t.members|
    requires var ts := MemberTokens(t, i) + [EndObject] + tail; ts[0] == EndObject || ts[0] == EndArray
    ensures i == |t.members| && MemberTokens(t, i) == []
  {
  }

  // ---------------------------------------------------------------------------
  // The recognizer
  // ---------------------------------------------------------------------------

  class Decoder {
    var rest: seq<Token>

    constructor (tokens: seq<Token>)
      ensures rest == tokens
    {
      rest := tokens;
    }

    predicate More()
      reads this
    {
      rest != [] && rest[0] != EndObject && rest[0] != EndArray
    }

    method Next() returns (token: Token)
      requires rest != []
      modifies this
      ensures token == old(rest)[0] && rest == old(rest)[1..]
    {
      token := rest[0];
      rest := rest[1..];
    }

    /** On the tokens of any tree: accepts exactly the well-shaped ones, and then has consumed
        exactly that value. */
    method AuditJsonValue(path: string, depth: nat, ghost t: Tree, ghost tail: seq<Token>) returns (ok: bool)
      requires rest == Tokens(t) + tail
      modifies this
      ensures ok <==> WellShaped(t, path, depth)
      ensures ok ==> rest == tail
      decreases t, 1
    {
      if depth > 64 {
        TooDeepIsRefused(t, path, depth);
        return false;
      }
      var token := Next();
      assert !t.Obj? && !t.Arr? ==> rest == tail;
      if token == BeginObject {
        assert rest == MemberTokens(t, 0) + [EndObject] + tail;
        ok := ObjectRest(path, depth, t, tail);
      } else if token == BeginArray {
        assert rest == ItemTokens(t, 0) + [EndArray] + tail;
        ok := ArrayRest(path, depth, t, tail);
      } else {
        ok := true;
      }
    }

    /** One turn of the member loop: `seen` holds the names before member `i`. */
    method ObjectMember(
      path: string, depth: nat, seen: set<string>, ghost t: Tree, ghost i: nat, ghost tail: seq<Token>)
      returns (ok: bool, name: string)
      requires t.Obj? && depth <= 64 && i < |t.members| && seen == NamesBefore(t, i)
      requires rest == MemberTokens(t, i) + [EndObject] + tail
      modifies this
      ensures ok <==> MemberOk(t, i, path, depth)
      ensures ok ==> rest == MemberTokens(t, i + 1) + [EndObject] + tail && name == t.members[i].name
      decreases t, 0, 0
    {
      ghost var m := t.members[i];
      ghost var after := MemberTokens(t, i + 1) + [EndObject] + tail;
      assert rest == [Word(m.name)] + (Tokens(m.value) + after);
      var token := Next();
      assert rest == Tokens(m.value) + after;
      name := token.s;
      if name in seen {
        return false, name;
      }
      if path in FIELDS && name !in FIELDS[path] {
        return false, name;
      }
      ok := AuditJsonValue(ChildPath(path, name), depth + 1, m.value, after);
    }

    method ObjectRest(path: string, depth: nat, ghost t: Tree, ghost tail: seq<Token>) returns (ok: bool)
      requires t.Obj? && depth <= 64 && rest == MemberTokens(t, 0) + [EndObject] + tail
      modifies this
      ensures ok <==> WellShaped(t, path, depth)
      ensures ok ==> rest == tail
      decreases t, 0, 1
    {
      ObjectLevel(t, path, depth);
      var seen: set<string> := {};
      ghost var i := 0;
      while More()
        invariant 0 <= i <= |t.members|
        invariant rest == MemberTokens(t, i) + [EndObject] + tail
        invariant seen == NamesBefore(t, i)
        invariant forall j :: 0 <= j < i ==> MemberOk(t, j, path, depth)
        decreases |t.members| - i
      {
        assert i < |t.members|;
        var inner, name := ObjectMember(path, depth, seen, t, i, tail);
        if !inner {
          return false;
        }
        seen := seen + {name};
        i := i + 1;
      }
      MemberTokensGoOn(t, i, tail);
      assert rest == [EndObject] + tail;
      if IsProfile(path) {
        var complete := AllSeen(seen, PROFILE);
        assert forall name :: name in seen <==> HasName(t, name);
        if !complete {
          return false;
        }
      }
      var token := Next();
      return token == EndObject;
    }

    method AllSeen(seen: set<string>, names: seq<string>) returns (all: bool)
      ensures all <==> forall k :: 0 <= k < |names| ==> names[k] in seen
    {
      for k := 0 to |names|
        invariant forall j :: 0 <= j < k ==> names[j] in seen
      {
        if names[k] !in seen {
          return false;
        }
      }
      return true;
    }

    /** One turn of the element loop. */
    method ArrayItem(childPath: string, depth: nat, ghost t: Tree, ghost i: nat, ghost tail: seq<Token>)
      returns (ok: bool)
      requires t.Arr? && depth <= 64 && i < |t.items|
      requires rest == ItemTokens(t, i) + [EndArray] + tail
      modifies this
      ensures ok <==> WellShaped(t.items[i], childPath, depth + 1)
      ensures ok ==> rest == ItemTokens(t, i + 1) + [EndArray] + tail
      decreases t, 0, 0
    {
      ghost var after := ItemTokens(t, i + 1) + [EndArray] + tail;
      assert rest == Tokens(t.items[i]) + after;
      ok := AuditJsonValue(childPath, depth + 1, t.items[i], after);
    }

    method ArrayRest(path: string, depth: nat, ghost t: Tree, ghost tail: seq<Token>) returns (ok: bool)
      requires t.Arr? && depth <= 64 && rest == ItemTokens(t, 0) + [EndArray] + tail
      modifies this
      ensures ok <==> WellShaped(t, path, depth)
      ensures ok ==> rest == tail
      decreases t, 0, 1
    {
      ArrayLevel(t, path, depth);
      var childPath := if path == CONTACTS then CONTACT else OPAQUE;
      ghost var i := 0;
      while More()
        invariant 0 <= i <= |t.items|
        invariant rest == ItemTokens(t, i) + [EndArray] + tail
        invariant forall j :: 0 <= j < i ==> ItemOk(t, j, path, depth)
        decreases |t.items| - i
      {
        ItemTokensGoOn(t, i, tail);
        var inner := ArrayItem(childPath, depth, t, i, tail);
        assert inner <==> ItemOk(t, i, path, depth);
        if !inner {
          return false;
        }
        i := i + 1;
      }
      ItemTokensGoOn(t, i, tail);
      var token := Next();
      return token == EndArray;
    }
  }

  /** The check as called on a message, whose value starts at the root path. Anything after the value
      is left to the decoder. */
  method AuditJsonShape(tokens: seq<Token>, ghost t: Tree, ghost tail: seq<Token>) returns (ok: bool)
    requires tokens == Tokens(t) + tail
    ensures ok <==> UniqueNames(t) && NestsAtMost(t, 64) && UsesVocabulary(t, "") && CompleteProfiles(t, "")
  {
    var decoder := new Decoder(tokens);
    ok := decoder.AuditJsonValue("", 0, t, tail);
  }
}
