/** What expansion means: templates as text and variables, and the replace loop against one
    simultaneous substitution. */
module TemplateMeaning {
  import opened Text
  import opened Json
  import opened Templates

  // ---------------------------------------------------------------------------
  // Templates as pieces
  // ---------------------------------------------------------------------------

  /** Text and variables. Text may hold closing braces, but no opening one. */
  datatype Piece = Lit(text: string) | Var(before: string, path: string, after: string)

  predicate NoOpen(s: string)
  {
    forall i :: 0 <= i < |s| ==> s[i] != '{'
  }

  predicate AllSpace(s: string)
  {
    forall i :: 0 <= i < |s| ==> Space(s[i])
  }

  predicate AllName(s: string)
  {
    forall i :: 0 <= i < |s| ==> NameChar(s[i])
  }

  predicate PieceOk(p: Piece)
  {
    match p
    case Lit(text) => NoOpen(text)
    case Var(before, path, after) => AllSpace(before) && path != "" && AllName(path) && AllSpace(after)
  }

  predicate PiecesOk(ps: seq<Piece>)
  {
    forall i :: 0 <= i < |ps| ==> PieceOk(ps[i])
  }

  /** A variable after its two opening braces. */
  function Inner(p: Piece): string
    requires p.Var?
  {
    p.before + (p.path + (p.after + "}}"))
  }

  function PieceText(p: Piece): string
  {
    if p.Lit? then p.text else "{{" + Inner(p)
  }

  function Render(ps: seq<Piece>): string
  {
    if ps == [] then "" else PieceText(ps[0]) + Render(ps[1..])
  }

  /** One simultaneous substitution. */
  function Simultaneous(env: Env, ps: seq<Piece>): Result<string>
  {
    if ps == [] then Ok("")
    else
      var head := if ps[0].Lit? then Ok(ps[0].text) else Substitute(env, ps[0].path);
      var rest := Simultaneous(env, ps[1..]);
      if head.Ok? && rest.Ok? then Ok(head.value + rest.value) else Err
  }

  function MatchesOf(ps: seq<Piece>): seq<Match>
  {
    if ps == [] then []
    else if ps[0].Lit? then MatchesOf(ps[1..])
    else [Match(PieceText(ps[0]), ps[0].path)] + MatchesOf(ps[1..])
  }

  // Scanning a variable

  lemma {:induction false} SpacesOf(w: string, rest: string)
    requires AllSpace(w) && (rest == "" || !Space(rest[0]))
    ensures AfterSpaces(w + rest) == rest
  {
    if w == "" {
      assert w + rest == rest;
    } else {
      SpacesOf(w[1..], rest);
      assert (w + rest)[1..] == w[1..] + rest;
    }
  }

  lemma {:induction false} NameOf(w: string, rest: string)
    requires AllName(w) && (rest == "" || !NameChar(rest[0]))
    ensures AfterName(w + rest) == rest
  {
    if w == "" {
      assert w + rest == rest;
    } else {
      NameOf(w[1..], rest);
      assert (w + rest)[1..] == w[1..] + rest;
    }
  }

  lemma VariableTail(p: Piece, rest: string)
    requires p.Var?
    ensures PieceText(p) + rest == "{{" + (p.before + (p.path + (p.after + ("}}" + rest))))
  {
    assert Inner(p) + rest == p.before + ((p.path + (p.after + "}}")) + rest);
    assert (p.path + (p.after + "}}")) + rest == p.path + ((p.after + "}}") + rest);
    assert (p.after + "}}") + rest == p.after + ("}}" + rest);
    assert PieceText(p) + rest == "{{" + (Inner(p) + rest);
  }

  /** At a variable the matcher takes that variable, whatever follows. */
  lemma MatchesVariable(p: Piece, rest: string)
    requires p.Var? && PieceOk(p)
    ensures MatchHead(PieceText(p) + rest) == Some(Match(PieceText(p), p.path))
  {
    var s := PieceText(p) + rest;
    var close := "}}" + rest;
    var after := p.after + close;
    var name := p.path + after;
    VariableTail(p, rest);
    assert s[2..] == p.before + name;
    SpacesOf(p.before, name);
    NameOf(p.path, after);
    SpacesOf(p.after, close);
    assert name[..|name| - |after|] == p.path;
    assert s[..|s| - |close| + 2] == PieceText(p);
  }

  // Skipping text without an opening brace

  lemma ReplaceStep(c: char, rest: string, part: string, fill: string)
    requires part != "" && !(part <= [c] + rest)
    ensures ReplaceAll([c] + rest, part, fill) == [c] + ReplaceAll(rest, part, fill)
  {
    assert ([c] + rest)[1..] == rest;
  }

  lemma {:induction false} ReplaceSkips(l: string, rest: string, part: string, fill: string)
    requires NoOpen(l) && part != "" && part[0] == '{'
    ensures ReplaceAll(l + rest, part, fill) == l + ReplaceAll(rest, part, fill)
  {
    if l == "" {
      assert l + rest == rest;
    } else {
      assert l + rest == [l[0]] + (l[1..] + rest);
      ReplaceStep(l[0], l[1..] + rest, part, fill);
      ReplaceSkips(l[1..], rest, part, fill);
      assert l + ReplaceAll(rest, part, fill) == [l[0]] + (l[1..] + ReplaceAll(rest, part, fill));
    }
  }

  lemma {:induction false} FindSkips(l: string, rest: string)
    requires NoOpen(l)
    ensures FindAll(l + rest) == FindAll(rest)
  {
    if l == "" {
      assert l + rest == rest;
    } else {
      var s := l + rest;
      assert s[1..] == l[1..] + rest && s[0] == l[0];
      FindSkips(l[1..], rest);
    }
  }

  lemma InnerHasNoOpen(p: Piece)
    requires p.Var? && PieceOk(p)
    ensures NoOpen(Inner(p)) && Inner(p) != ""
  {
  }

  /** A search that does not take a variable at its start passes over all of it. */
  lemma SkipVariable(p: Piece, rest: string, part: string, fill: string)
    requires p.Var? && PieceOk(p) && "{{" <= part && !(part <= PieceText(p) + rest)
    ensures ReplaceAll(PieceText(p) + rest, part, fill) == PieceText(p) + ReplaceAll(rest, part, fill)
  {
    var inner := Inner(p);
    InnerHasNoOpen(p);
    Regroup("{{", inner, rest);
    SkipOpening(inner + rest, part, fill);
    ReplaceSkips(inner, rest, part, fill);
    Regroup("{{", inner, ReplaceAll(rest, part, fill));
  }

  lemma SkipOpening(tail: string, part: string, fill: string)
    requires tail != "" && tail[0] != '{' && "{{" <= part && !(part <= "{{" + tail)
    ensures ReplaceAll("{{" + tail, part, fill) == "{{" + ReplaceAll(tail, part, fill)
  {
    assert "{{" + tail == ['{'] + (['{'] + tail);
    ReplaceStep('{', ['{'] + tail, part, fill);
    assert !(part <= ['{'] + tail) by {
      assert (['{'] + tail)[1] == tail[0] && part[1] == '{';
    }
    ReplaceStep('{', tail, part, fill);
  }

  /** A variable's text gives back its three parts. */
  lemma TextDecidesVariable(p: Piece, q: Piece)
    requires p.Var? && q.Var? && PieceOk(p) && PieceOk(q) && PieceText(p) == PieceText(q)
    ensures p == q
  {
    PartsOf(p);
    PartsOf(q);
    assert Inner(p) == PieceText(p)[2..] && Inner(q) == PieceText(q)[2..];
    var name := AfterSpaces(Inner(p));
    assert name == p.path + (p.after + "}}") && name == q.path + (q.after + "}}");
    assert p.before == Inner(p)[..|Inner(p)| - |name|] && q.before == Inner(q)[..|Inner(q)| - |name|];
    var after := AfterName(name);
    assert p.path == name[..|name| - |after|] && q.path == name[..|name| - |after|];
    assert p.after == after[..|after| - 2] && q.after == after[..|after| - 2];
  }

  lemma PartsOf(p: Piece)
    requires p.Var? && PieceOk(p)
    ensures AfterSpaces(Inner(p)) == p.path + (p.after + "}}")
    ensures AfterName(p.path + (p.after + "}}")) == p.after + "}}"
  {
    SpacesOf(p.before, p.path + (p.after + "}}"));
    NameOf(p.path, p.after + "}}");
  }

  lemma OnlyItself(p: Piece, q: Piece, rest: string)
    requires p.Var? && q.Var? && PieceOk(p) && PieceOk(q) && p != q
    ensures !(PieceText(q) <= PieceText(p) + rest)
  {
    var s := PieceText(p) + rest;
    if PieceText(q) <= s {
      MatchesVariable(p, rest);
      OtherMatch(q, s);
      TextDecidesVariable(p, q);
    }
  }

  lemma OtherMatch(q: Piece, s: string)
    requires q.Var? && PieceOk(q) && PieceText(q) <= s
    ensures MatchHead(s) == Some(Match(PieceText(q), q.path))
  {
    var rest := s[|PieceText(q)|..];
    assert PieceText(q) + rest == s;
    MatchesVariable(q, rest);
  }

  lemma {:induction false} FindsTheVariables(ps: seq<Piece>)
    requires PiecesOk(ps)
    ensures FindAll(Render(ps)) == MatchesOf(ps)
  {
    if ps != [] {
      var p, rest := ps[0], Render(ps[1..]);
      FindsTheVariables(ps[1..]);
      if p.Lit? {
        FindSkips(p.text, rest);
      } else {
        MatchesVariable(p, rest);
        assert (PieceText(p) + rest)[|PieceText(p)|..] == rest;
      }
    }
  }

  // ---------------------------------------------------------------------------
  // One replacement
  // ---------------------------------------------------------------------------

  function SpliceIn(ps: seq<Piece>, v: Piece, vs: seq<Piece>): seq<Piece>
  {
    if ps == [] then [] else (if ps[0] == v then vs else [ps[0]]) + SpliceIn(ps[1..], v, vs)
  }

  lemma {:induction false} RenderJoins(a: seq<Piece>, b: seq<Piece>)
    ensures Render(a + b) == Render(a) + Render(b)
  {
    if a == [] {
      assert a + b == b;
    } else {
      RenderJoins(a[1..], b);
      assert a == [a[0]] + a[1..];
      RenderJoinsStep(a[0], a[1..], b);
    }
  }

  lemma RenderJoinsStep(p: Piece, a: seq<Piece>, b: seq<Piece>)
    requires Render(a + b) == Render(a) + Render(b)
    ensures Render([p] + a + b) == Render([p] + a) + Render(b)
  {
    Regroup([p], a, b);
    RenderCons(p, a + b);
    RenderCons(p, a);
    Regroup(PieceText(p), Render(a), Render(b));
  }

  lemma RenderCons(p: Piece, ps: seq<Piece>)
    ensures Render([p] + ps) == PieceText(p) + Render(ps)
  {
    assert ([p] + ps)[1..] == ps;
  }

  lemma Regroup<T>(a: seq<T>, b: seq<T>, c: seq<T>)
    ensures a + (b + c) == (a + b) + c
  {
  }

  lemma RenderOne(p: Piece)
    ensures Render([p]) == PieceText(p)
  {
    assert [p][1..] == [];
  }

  lemma {:induction false} SpliceKeepsPieces(ps: seq<Piece>, v: Piece, vs: seq<Piece>)
    requires PiecesOk(ps) && PiecesOk(vs)
    ensures PiecesOk(SpliceIn(ps, v, vs))
  {
    if ps != [] {
      SpliceKeepsPieces(ps[1..], v, vs);
    }
  }

  /** Replacing a variable's text replaces exactly that variable's pieces, whatever is put there. */
  lemma {:induction false} ReplaceAllSplices(ps: seq<Piece>, v: Piece, vs: seq<Piece>)
    requires PiecesOk(ps) && v.Var? && PieceOk(v)
    ensures ReplaceAll(Render(ps), PieceText(v), Render(vs)) == Render(SpliceIn(ps, v, vs))
  {
    if ps != [] {
      ReplaceAllSplices(ps[1..], v, vs);
      RenderJoins(if ps[0] == v then vs else [ps[0]], SpliceIn(ps[1..], v, vs));
      RenderOne(ps[0]);
      ReplaceHead(ps[0], Render(ps[1..]), v, Render(vs));
    }
  }

  lemma ReplaceHead(p: Piece, rest: string, v: Piece, fill: string)
    requires PieceOk(p) && v.Var? && PieceOk(v)
    ensures ReplaceAll(PieceText(p) + rest, PieceText(v), fill) ==
            (if p == v then fill else PieceText(p)) + ReplaceAll(rest, PieceText(v), fill)
  {
    if p.Lit? {
      ReplaceSkips(p.text, rest, PieceText(v), fill);
    } else if p == v {
      assert (PieceText(v) + rest)[|PieceText(v)|..] == rest;
    } else {
      OnlyItself(p, v, rest);
      SkipVariable(p, rest, PieceText(v), fill);
    }
  }

  // ---------------------------------------------------------------------------
  // The whole loop
  // ---------------------------------------------------------------------------

  /** `vals` gives the pieces of every value that gets inserted. A value without an opening brace is
      one piece of text; others must be text and variables themselves. */
  ghost predicate Structured(env: Env, ps: seq<Piece>, vals: string -> seq<Piece>)
  {
    forall p :: p in ps && p.Var? && Substitute(env, p.path).Ok? ==>
      PiecesOk(vals(p.path)) && Render(vals(p.path)) == Substitute(env, p.path).value
  }

  ghost predicate Fails(env: Env, ps: seq<Piece>)
  {
    exists p :: p in ps && p.Var? && Substitute(env, p.path).Err?
  }

  /** What the loop over the variables `todo` makes of the pieces `ps`. */
  function Spliced(ps: seq<Piece>, todo: seq<Piece>, vals: string -> seq<Piece>): seq<Piece>
    decreases |todo|
  {
    if todo == [] then ps
    else if todo[0].Lit? then Spliced(ps, todo[1..], vals)
    else Spliced(SpliceIn(ps, todo[0], vals(todo[0].path)), todo[1..], vals)
  }

  lemma MatchesOfVar(todo: seq<Piece>)
    requires todo != []
    ensures todo[0].Lit? ==> MatchesOf(todo) == MatchesOf(todo[1..])
    ensures todo[0].Var? ==>
              && MatchesOf(todo) != [] && MatchesOf(todo)[0] == Match(PieceText(todo[0]), todo[0].path)
              && MatchesOf(todo)[1..] == MatchesOf(todo[1..])
  {
  }

  lemma {:induction false} MatchesOfAreNotEmpty(ps: seq<Piece>)
    ensures forall m :: m in MatchesOf(ps) ==> m.full != ""
  {
    if ps != [] {
      MatchesOfAreNotEmpty(ps[1..]);
    }
  }

  lemma InTail<T>(s: seq<T>, x: T)
    requires s != []
    ensures x in s <==> x == s[0] || x in s[1..]
  {
  }

  lemma TailOf(env: Env, ps: seq<Piece>, vals: string -> seq<Piece>)
    requires ps != []
    ensures PiecesOk(ps) ==> PiecesOk(ps[1..])
    ensures Structured(env, ps, vals) ==> Structured(env, ps[1..], vals)
    ensures Fails(env, ps) <==> (ps[0].Var? && Substitute(env, ps[0].path).Err?) || Fails(env, ps[1..])
  {
    forall p ensures p in ps <==> p == ps[0] || p in ps[1..] {
      InTail(ps, p);
    }
  }

  /** The loop on strings is the loop on pieces. */
  lemma {:induction false} LoopSplices(env: Env, ps: seq<Piece>, todo: seq<Piece>, vals: string -> seq<Piece>)
    requires PiecesOk(ps) && PiecesOk(todo) && Structured(env, todo, vals)
    ensures forall m :: m in MatchesOf(todo) ==> m.full != ""
    ensures Fails(env, todo) ==> Sequential(env, Render(ps), MatchesOf(todo)).Err?
    ensures !Fails(env, todo) ==>
              && PiecesOk(Spliced(ps, todo, vals))
              && Sequential(env, Render(ps), MatchesOf(todo)) == Ok(Render(Spliced(ps, todo, vals)))
    decreases |todo|
  {
    MatchesOfAreNotEmpty(todo);
    if todo != [] {
      MatchesOfVar(todo);
      TailOf(env, todo, vals);
      var v := todo[0];
      if v.Lit? {
        LoopSplices(env, ps, todo[1..], vals);
      } else if Substitute(env, v.path).Ok? {
        var vs := vals(v.path);
        ReplaceAllSplices(ps, v, vs);
        SpliceKeepsPieces(ps, v, vs);
        LoopSplices(env, SpliceIn(ps, v, vs), todo[1..], vals);
      }
    }
  }

  // ---------------------------------------------------------------------------
  // One simultaneous substitution
  // ---------------------------------------------------------------------------

  function Inserted(p: Piece, todo: seq<Piece>, vals: string -> seq<Piece>): seq<Piece>
  {
    if p.Var? && p in todo then vals(p.path) else [p]
  }

  /** Every variable of `todo` is replaced by its value, once. */
  function Once(ps: seq<Piece>, todo: seq<Piece>, vals: string -> seq<Piece>): seq<Piece>
  {
    if ps == [] then [] else Inserted(ps[0], todo, vals) + Once(ps[1..], todo, vals)
  }

  lemma {:induction false} SimultaneousIsOnce(env: Env, ps: seq<Piece>, todo: seq<Piece>, vals: string -> seq<Piece>)
    requires Structured(env, ps, vals) && forall p :: p in ps ==> p in todo
    ensures Fails(env, ps) ==> Simultaneous(env, ps).Err?
    ensures !Fails(env, ps) ==> Simultaneous(env, ps) == Ok(Render(Once(ps, todo, vals)))
  {
    if ps != [] {
      TailOf(env, ps, vals);
      SimultaneousIsOnce(env, ps[1..], todo, vals);
      RenderJoins(Inserted(ps[0], todo, vals), Once(ps[1..], todo, vals));
      RenderOne(ps[0]);
    }
  }

  lemma OnceCons(p: Piece, ps: seq<Piece>, todo: seq<Piece>, vals: string -> seq<Piece>)
    ensures Once([p] + ps, todo, vals) == Inserted(p, todo, vals) + Once(ps, todo, vals)
  {
    assert ([p] + ps)[1..] == ps;
  }

  lemma {:induction false} OnceJoins(a: seq<Piece>, b: seq<Piece>, todo: seq<Piece>, vals: string -> seq<Piece>)
    ensures Once(a + b, todo, vals) == Once(a, todo, vals) + Once(b, todo, vals)
  {
    if a == [] {
      assert a + b == b;
    } else {
      OnceJoins(a[1..], b, todo, vals);
      assert a + b == [a[0]] + (a[1..] + b);
      OnceCons(a[0], a[1..] + b, todo, vals);
      Regroup(Inserted(a[0], todo, vals), Once(a[1..], todo, vals), Once(b, todo, vals));
    }
  }

  lemma OnceOfOne(p: Piece, todo: seq<Piece>, vals: string -> seq<Piece>)
    ensures Once([p], todo, vals) == Inserted(p, todo, vals)
  {
    assert [p][1..] == [];
  }

  lemma {:induction false} OnceIgnoresText(ps: seq<Piece>, todo: seq<Piece>, vals: string -> seq<Piece>)
    requires todo != [] && todo[0].Lit?
    ensures Once(ps, todo, vals) == Once(ps, todo[1..], vals)
  {
    if ps != [] {
      InTail(todo, ps[0]);
      OnceIgnoresText(ps[1..], todo, vals);
    }
  }

  lemma {:induction false} OnceKeeps(vs: seq<Piece>, todo: seq<Piece>, vals: string -> seq<Piece>)
    requires forall p :: p in vs && p.Var? ==> p !in todo
    ensures Once(vs, todo, vals) == vs
  {
    if vs != [] {
      OnceKeeps(vs[1..], todo, vals);
    }
  }

  // ---------------------------------------------------------------------------
  // Rescans
  // ---------------------------------------------------------------------------

  /** The value inserted for variable `i` brings in variable `j`, which the loop has still to replace. */
  predicate Rescanned(todo: seq<Piece>, vals: string -> seq<Piece>, i: nat, j: nat)
  {
    i < j < |todo| && todo[i].Var? && todo[j].Var? && todo[j] in vals(todo[i].path)
  }

  ghost predicate NothingRescanned(todo: seq<Piece>, vals: string -> seq<Piece>)
  {
    forall i: nat, j: nat :: !Rescanned(todo, vals, i, j)
  }

  /** A variable brought in by a value is not itself replaced by further variables. */
  ghost predicate Shallow(todo: seq<Piece>, vals: string -> seq<Piece>)
  {
    forall i: nat, j: nat :: Rescanned(todo, vals, i, j) ==> Variables(vals(todo[j].path)) == 0
  }

  ghost predicate AllPieces(todo: seq<Piece>, vals: string -> seq<Piece>)
  {
    PiecesOk(todo) && forall p :: p in todo && p.Var? ==> PiecesOk(vals(p.path))
  }

  lemma TailIsReady(todo: seq<Piece>, vals: string -> seq<Piece>)
    requires todo != []
    ensures NothingRescanned(todo, vals) ==> NothingRescanned(todo[1..], vals)
    ensures Shallow(todo, vals) ==> Shallow(todo[1..], vals)
    ensures AllPieces(todo, vals) ==> AllPieces(todo[1..], vals)
  {
    forall i: nat, j: nat ensures Rescanned(todo[1..], vals, i, j) <==> Rescanned(todo, vals, i + 1, j + 1) {
      assert j < |todo[1..]| ==> todo[1..][j] == todo[j + 1];
    }
    forall i: nat, j: nat | Shallow(todo, vals) && Rescanned(todo[1..], vals, i, j)
      ensures Variables(vals(todo[1..][j].path)) == 0
    {
      assert Rescanned(todo, vals, i + 1, j + 1) && todo[1..][j] == todo[j + 1];
    }
  }

  lemma {:induction false} OnceAfterSplice(ps: seq<Piece>, todo: seq<Piece>, vals: string -> seq<Piece>)
    requires todo != [] && todo[0].Var?
    requires Once(vals(todo[0].path), todo[1..], vals) == vals(todo[0].path)
    ensures Once(SpliceIn(ps, todo[0], vals(todo[0].path)), todo[1..], vals) == Once(ps, todo, vals)
    decreases |ps|
  {
    if ps != [] {
      var v, vs := todo[0], vals(todo[0].path);
      OnceAfterSplice(ps[1..], todo, vals);
      OnceJoins(if ps[0] == v then vs else [ps[0]], SpliceIn(ps[1..], v, vs), todo[1..], vals);
      InTail(todo, ps[0]);
      OnceOfOne(ps[0], todo[1..], vals);
    }
  }

  lemma FirstIsNotRescanned(todo: seq<Piece>, vals: string -> seq<Piece>)
    requires todo != [] && todo[0].Var? && NothingRescanned(todo, vals)
    ensures forall p :: p in vals(todo[0].path) && p.Var? ==> p !in todo[1..]
  {
    forall p | p in vals(todo[0].path) && p.Var? ensures p !in todo[1..] {
      forall j | 0 <= j < |todo[1..]| ensures todo[1..][j] != p {
        assert !Rescanned(todo, vals, 0, j + 1) && todo[1..][j] == todo[j + 1];
      }
    }
  }

  lemma {:induction false} SplicedIsOnce(ps: seq<Piece>, todo: seq<Piece>, vals: string -> seq<Piece>)
    requires NothingRescanned(todo, vals)
    ensures Spliced(ps, todo, vals) == Once(ps, todo, vals)
    decreases |todo|
  {
    if todo == [] {
      OnceKeeps(ps, todo, vals);
    } else {
      TailIsReady(todo, vals);
      if todo[0].Lit? {
        OnceIgnoresText(ps, todo, vals);
        SplicedIsOnce(ps, todo[1..], vals);
      } else {
        var vs := vals(todo[0].path);
        FirstIsNotRescanned(todo, vals);
        OnceKeeps(vs, todo[1..], vals);
        OnceAfterSplice(ps, todo, vals);
        SplicedIsOnce(SpliceIn(ps, todo[0], vs), todo[1..], vals);
      }
    }
  }

  // ---------------------------------------------------------------------------
  // A rescan shows
  // ---------------------------------------------------------------------------

  function Variables(ps: seq<Piece>): nat
  {
    if ps == [] then 0 else (if ps[0].Var? then 1 else 0) + Variables(ps[1..])
  }

  lemma {:induction false} VariablesAdd(a: seq<Piece>, b: seq<Piece>)
    ensures Variables(a + b) == Variables(a) + Variables(b)
  {
    if a == [] {
      assert a + b == b;
    } else {
      VariablesAdd(a[1..], b);
      assert (a + b)[1..] == a[1..] + b;
    }
  }

  lemma VariablesOfOne(p: Piece)
    ensures Variables([p]) == if p.Var? then 1 else 0
  {
    assert [p][1..] == [];
  }

  /** Replacing variables by plain text leaves fewer variables. */
  lemma {:induction false} OnceShrinks(vs: seq<Piece>, todo: seq<Piece>, vals: string -> seq<Piece>)
    requires forall p :: p in vs && p.Var? && p in todo ==> Variables(vals(p.path)) == 0
    ensures Variables(Once(vs, todo, vals)) <= Variables(vs)
    ensures (exists p :: p in vs && p.Var? && p in todo) ==> Variables(Once(vs, todo, vals)) < Variables(vs)
  {
    if vs != [] {
      OnceShrinks(vs[1..], todo, vals);
      VariablesAdd(Inserted(vs[0], todo, vals), Once(vs[1..], todo, vals));
      VariablesOfOne(vs[0]);
    }
  }

  /** Splicing first and replacing the rest afterwards never gives more variables than replacing all
      at once, and gives fewer if the spliced value shrinks. */
  lemma {:induction false} SpliceShrinks(ps: seq<Piece>, todo: seq<Piece>, vals: string -> seq<Piece>)
    requires todo != [] && todo[0].Var?
    requires Variables(Once(vals(todo[0].path), todo[1..], vals)) <= Variables(vals(todo[0].path))
    ensures var after := Once(SpliceIn(ps, todo[0], vals(todo[0].path)), todo[1..], vals);
            var shrinks := Variables(Once(vals(todo[0].path), todo[1..], vals)) < Variables(vals(todo[0].path));
            && Variables(after) <= Variables(Once(ps, todo, vals))
            && (todo[0] in ps && shrinks ==> Variables(after) < Variables(Once(ps, todo, vals)))
    decreases |ps|
  {
    if ps != [] {
      var v, vs, p := todo[0], vals(todo[0].path), ps[0];
      var head := if p == v then vs else [p];
      SpliceShrinks(ps[1..], todo, vals);
      InTail(ps, v);
      InTail(todo, p);
      OnceJoins(head, SpliceIn(ps[1..], v, vs), todo[1..], vals);
      OnceOfOne(p, todo[1..], vals);
      VariablesAdd(Once(head, todo[1..], vals), Once(SpliceIn(ps[1..], v, vs), todo[1..], vals));
      VariablesAdd(Inserted(p, todo, vals), Once(ps[1..], todo, vals));
    }
  }

  /** What the first value brings in is plain text once it has been replaced. */
  lemma FirstValueShrinks(todo: seq<Piece>, vals: string -> seq<Piece>)
    requires todo != [] && todo[0].Var? && Shallow(todo, vals)
    ensures var vs := vals(todo[0].path);
            && Variables(Once(vs, todo[1..], vals)) <= Variables(vs)
            && ((exists j: nat :: Rescanned(todo, vals, 0, j)) ==> Variables(Once(vs, todo[1..], vals)) < Variables(vs))
  {
    var vs := vals(todo[0].path);
    forall p | p in vs && p.Var? && p in todo[1..] ensures Variables(vals(p.path)) == 0 {
      var j :| 0 <= j < |todo[1..]| && todo[1..][j] == p;
      assert Rescanned(todo, vals, 0, j + 1);
    }
    if j: nat :| Rescanned(todo, vals, 0, j) {
      assert todo[1..][j - 1] == todo[j];
    }
    OnceShrinks(vs, todo[1..], vals);
  }

  lemma {:induction false} SpliceKeepsOthers(ps: seq<Piece>, v: Piece, vs: seq<Piece>, p: Piece)
    requires p in ps && p != v
    ensures p in SpliceIn(ps, v, vs)
  {
    InTail(ps, p);
    if p in ps[1..] {
      SpliceKeepsOthers(ps[1..], v, vs, p);
    }
  }

  lemma {:induction false} SplicedHasNoMore(ps: seq<Piece>, todo: seq<Piece>, vals: string -> seq<Piece>)
    requires Shallow(todo, vals)
    ensures Variables(Spliced(ps, todo, vals)) <= Variables(Once(ps, todo, vals))
    decreases |todo|
  {
    if todo == [] {
      OnceKeeps(ps, todo, vals);
    } else {
      TailIsReady(todo, vals);
      if todo[0].Lit? {
        OnceIgnoresText(ps, todo, vals);
        SplicedHasNoMore(ps, todo[1..], vals);
      } else {
        StepHasFewer(ps, todo, vals, 0);
        SplicedHasNoMore(SpliceIn(ps, todo[0], vals(todo[0].path)), todo[1..], vals);
      }
    }
  }

  lemma {:induction false} SplicedHasFewer(
    ps: seq<Piece>, todo: seq<Piece>, vals: string -> seq<Piece>, i: nat, j: nat)
    requires Shallow(todo, vals) && Rescanned(todo, vals, i, j) && todo[i] in ps
    ensures Variables(Spliced(ps, todo, vals)) < Variables(Once(ps, todo, vals))
    decreases |todo|
  {
    var v := todo[0];
    if v.Lit? {
      LaterIsRescanned(todo, vals, i, j);
      SplicedHasFewer(ps, todo[1..], vals, i - 1, j - 1);
      TextAddsNothing(ps, todo, vals);
    } else if todo[i] == v {
      FirstHasFewer(ps, todo, vals, j);
    } else {
      SpliceKeepsOthers(ps, v, vals(v.path), todo[i]);
      LaterIsRescanned(todo, vals, i, j);
      SplicedHasFewer(SpliceIn(ps, v, vals(v.path)), todo[1..], vals, i - 1, j - 1);
      StepHasFewer(ps, todo, vals, j);
    }
  }

  lemma TextAddsNothing(ps: seq<Piece>, todo: seq<Piece>, vals: string -> seq<Piece>)
    requires todo != [] && todo[0].Lit?
    ensures Spliced(ps, todo, vals) == Spliced(ps, todo[1..], vals)
    ensures Once(ps, todo, vals) == Once(ps, todo[1..], vals)
  {
    OnceIgnoresText(ps, todo, vals);
  }

  lemma FirstHasFewer(ps: seq<Piece>, todo: seq<Piece>, vals: string -> seq<Piece>, j: nat)
    requires Shallow(todo, vals) && Rescanned(todo, vals, 0, j) && todo[0] in ps
    ensures Variables(Spliced(ps, todo, vals)) < Variables(Once(ps, todo, vals))
  {
    TailIsReady(todo, vals);
    StepHasFewer(ps, todo, vals, j);
    SplicedHasNoMore(SpliceIn(ps, todo[0], vals(todo[0].path)), todo[1..], vals);
  }

  lemma LaterIsRescanned(todo: seq<Piece>, vals: string -> seq<Piece>, i: nat, j: nat)
    requires Shallow(todo, vals) && Rescanned(todo, vals, i, j) && 0 < i
    ensures Shallow(todo[1..], vals) && Rescanned(todo[1..], vals, i - 1, j - 1) && todo[1..][i - 1] == todo[i]
  {
    TailIsReady(todo, vals);
  }

  lemma StepHasFewer(ps: seq<Piece>, todo: seq<Piece>, vals: string -> seq<Piece>, j: nat)
    requires todo != [] && todo[0].Var? && Shallow(todo, vals)
    ensures var next := SpliceIn(ps, todo[0], vals(todo[0].path));
            && Spliced(ps, todo, vals) == Spliced(next, todo[1..], vals)
            && Variables(Once(next, todo[1..], vals)) <= Variables(Once(ps, todo, vals))
            && (todo[0] in ps && Rescanned(todo, vals, 0, j) ==>
                  Variables(Once(next, todo[1..], vals)) < Variables(Once(ps, todo, vals)))
  {
    FirstValueShrinks(todo, vals);
    SpliceShrinks(ps, todo, vals);
  }

  // ---------------------------------------------------------------------------
  // The loop against one simultaneous substitution
  // ---------------------------------------------------------------------------

  /** The replace loop is one simultaneous substitution exactly when it fails, or no value brings in
      the text of a variable that comes later in the template. Text and values may hold closing braces
      anywhere, and opening braces in values as parts of variables. */
  lemma LoopIsExact(env: Env, ps: seq<Piece>, vals: string -> seq<Piece>)
    requires PiecesOk(ps) && Structured(env, ps, vals) && (!Fails(env, ps) ==> Shallow(ps, vals))
    ensures forall m :: m in FindAll(Render(ps)) ==> m.full != ""
    ensures Sequential(env, Render(ps), FindAll(Render(ps))) == Simultaneous(env, ps) <==>
              Fails(env, ps) || NothingRescanned(ps, vals)
  {
    FindsTheVariables(ps);
    LoopSplices(env, ps, ps, vals);
    SimultaneousIsOnce(env, ps, ps, vals);
    if !Fails(env, ps) {
      if i: nat, j: nat :| Rescanned(ps, vals, i, j) {
        SplicedHasFewer(ps, ps, vals, i, j);
        OnceKeepsPieces(ps, ps, vals);
        CountIsVariables(Spliced(ps, ps, vals));
        CountIsVariables(Once(ps, ps, vals));
      } else {
        SplicedIsOnce(ps, ps, vals);
      }
    }
  }

  lemma {:induction false} OnceKeepsPieces(ps: seq<Piece>, todo: seq<Piece>, vals: string -> seq<Piece>)
    requires AllPieces(ps, vals)
    ensures PiecesOk(Once(ps, todo, vals))
  {
    if ps != [] {
      OnceKeepsPieces(ps[1..], todo, vals);
    }
  }

  /** Values that end up in the text have no opening brace of their own. */
  ghost predicate OpenFree(env: Env, ps: seq<Piece>)
  {
    forall p :: p in ps && p.Var? && Substitute(env, p.path).Ok? ==> NoOpen(Substitute(env, p.path).value)
  }

  function AsText(env: Env): string -> seq<Piece>
  {
    path => if Substitute(env, path).Ok? then [Lit(Substitute(env, path).value)] else []
  }

  /** In particular, with values that hold no opening brace the loop is always simultaneous. */
  lemma SequentialIsSimultaneous(env: Env, ps: seq<Piece>)
    requires PiecesOk(ps) && OpenFree(env, ps)
    ensures forall m :: m in FindAll(Render(ps)) ==> m.full != ""
    ensures Sequential(env, Render(ps), FindAll(Render(ps))) == Simultaneous(env, ps)
  {
    TextIsStructured(env, ps);
    LoopIsExact(env, ps, AsText(env));
  }

  lemma TextIsStructured(env: Env, ps: seq<Piece>)
    requires OpenFree(env, ps)
    ensures Structured(env, ps, AsText(env)) && NothingRescanned(ps, AsText(env)) && Shallow(ps, AsText(env))
  {
    var vals := AsText(env);
    forall p | p in ps && p.Var? && Substitute(env, p.path).Ok?
      ensures PiecesOk(vals(p.path)) && Render(vals(p.path)) == Substitute(env, p.path).value
    {
      RenderOne(Lit(Substitute(env, p.path).value));
    }
    forall i: nat, j: nat ensures !Rescanned(ps, vals, i, j) {
    }
  }

  // ---------------------------------------------------------------------------
  // Whole-value templates
  // ---------------------------------------------------------------------------

  predicate NoEmptyText(ps: seq<Piece>)
  {
    forall i :: 0 <= i < |ps| ==> PieceText(ps[i]) != ""
  }

  lemma {:induction false} CountSkips(l: string, rest: string)
    requires NoOpen(l)
    ensures Count(l + rest, "{{") == Count(rest, "{{")
  {
    if l == "" {
      assert l + rest == rest;
    } else {
      var s := l + rest;
      assert s[1..] == l[1..] + rest && s[0] == l[0];
      CountSkips(l[1..], rest);
    }
  }

  lemma CountOpening(s: string, tail: string)
    requires s == "{{" + tail
    ensures Count(s, "{{") == 1 + Count(tail, "{{")
  {
    assert s[2..] == tail;
  }

  lemma CountVariable(p: Piece, rest: string)
    requires p.Var? && PieceOk(p)
    ensures Count(PieceText(p) + rest, "{{") == 1 + Count(rest, "{{")
  {
    InnerHasNoOpen(p);
    Regroup("{{", Inner(p), rest);
    CountOpening(PieceText(p) + rest, Inner(p) + rest);
    CountSkips(Inner(p), rest);
  }

  lemma {:induction false} CountIsVariables(ps: seq<Piece>)
    requires PiecesOk(ps)
    ensures Count(Render(ps), "{{") == Variables(ps)
  {
    if ps != [] {
      var p, rest := ps[0], Render(ps[1..]);
      CountIsVariables(ps[1..]);
      if p.Lit? {
        CountSkips(p.text, rest);
      } else {
        CountVariable(p, rest);
      }
    }
  }

  lemma LoneVariableIsWhole(p: Piece)
    requires p.Var? && PieceOk(p)
    ensures WholeValue(PieceText(p))
  {
    var s := PieceText(p);
    CountVariable(p, "");
    assert s + "" == s;
    assert s == ("{{" + (p.before + (p.path + p.after))) + "}}";
  }

  predicate EndsInClose(s: string)
  {
    |s| >= 2 && s[|s| - 2..] == "}}"
  }

  predicate Lone(ps: seq<Piece>)
  {
    |ps| == 1 && ps[0].Var?
  }

  /** One variable at the start and text after it that happens to end in two closing braces. */
  predicate StrayClose(ps: seq<Piece>)
  {
    |ps| > 1 && ps[0].Var? && Variables(ps) == 1 && EndsInClose(Render(ps))
  }

  lemma OpensWithVariable(ps: seq<Piece>)
    requires PiecesOk(ps) && NoEmptyText(ps)
    ensures "{{" <= Render(ps) <==> ps != [] && ps[0].Var?
  {
    if ps != [] {
      assert Render(ps)[0] == PieceText(ps[0])[0];
    }
  }

  /** The code takes a template for one variable exactly when it is one, or looks like one from both ends. */
  lemma WholeExactly(ps: seq<Piece>)
    requires PiecesOk(ps) && NoEmptyText(ps)
    ensures WholeValue(Render(ps)) <==> Lone(ps) || StrayClose(ps)
  {
    CountIsVariables(ps);
    OpensWithVariable(ps);
    if |ps| == 1 {
      RenderOne(ps[0]);
      if ps[0].Var? {
        LoneVariableIsWhole(ps[0]);
      }
    } else if |ps| > 1 && ps[0].Var? {
      assert |Render(ps)| >= |PieceText(ps[0])| > 4;
    }
  }

  lemma NamesAreNotSpaces(c: char)
    requires NameChar(c)
    ensures !AnySpace(c)
  {
  }

  lemma {:induction false} TrimmedFront(before: string, s: string)
    requires AllSpace(before)
    ensures TrimSpace(before + s) == TrimSpace(s)
  {
    if before == "" {
      assert before + s == s;
    } else {
      assert (before + s)[1..] == before[1..] + s;
      TrimmedFront(before[1..], s);
    }
  }

  lemma {:induction false} TrimmedBack(path: string, after: string)
    requires path != "" && AllName(path) && AllSpace(after)
    ensures TrimSpace(path + after) == path
    decreases |after|
  {
    var s := path + after;
    NamesAreNotSpaces(path[0]);
    if after == "" {
      NamesAreNotSpaces(path[|path| - 1]);
      assert s == path;
    } else {
      assert s[..|s| - 1] == path + after[..|after| - 1];
      TrimmedBack(path, after[..|after| - 1]);
    }
  }

  /** What a template of text and variables means: a lone variable is its value, type and all;
      anything else is the text with every variable substituted. */
  function Meaning(env: Env, ps: seq<Piece>): Result<Value>
  {
    if Lone(ps) then WholeResult(env, ps[0].path)
    else
      var text := Simultaneous(env, ps);
      if text.Ok? then Ok(VStr(text.value)) else Err
  }

  lemma LoneMeansItsValue(env: Env, ps: seq<Piece>)
    requires PiecesOk(ps) && NoEmptyText(ps) && Lone(ps) && !Contains(Render(ps), "\\{{")
    ensures ExpandString(env, Render(ps)) == Meaning(env, ps)
  {
    var s, p := Render(ps), ps[0];
    WholeExactly(ps);
    RenderOne(p);
    WholeLooksUp(env, s);
    assert s[2..|s| - 2] == p.before + (p.path + p.after);
    TrimmedFront(p.before, p.path + p.after);
    TrimmedBack(p.path, p.after);
  }

  /** Text that ends in two closing braces after a single leading variable makes the code look up
      everything between the outer braces as one path. */
  lemma StrayCloseLooksUp(env: Env, ps: seq<Piece>)
    requires PiecesOk(ps) && NoEmptyText(ps) && StrayClose(ps) && !Contains(Render(ps), "\\{{")
    ensures |Render(ps)| >= 4 && ExpandString(env, Render(ps)) == WholeResult(env, OuterPath(Render(ps)))
  {
    WholeExactly(ps);
    WholeLooksUp(env, Render(ps));
  }

  lemma NothingRescannedAlone(ps: seq<Piece>, vals: string -> seq<Piece>)
    requires |ps| <= 1
    ensures NothingRescanned(ps, vals)
  {
  }

  /** Otherwise the expander computes the meaning of an unescaped template exactly when it fails or no
      value brings in a later variable. */
  lemma ExpandStringIsExact(env: Env, ps: seq<Piece>, vals: string -> seq<Piece>)
    requires PiecesOk(ps) && NoEmptyText(ps) && !StrayClose(ps) && !Contains(Render(ps), "\\{{")
    requires Structured(env, ps, vals) && (!Fails(env, ps) ==> Shallow(ps, vals))
    ensures ExpandString(env, Render(ps)) == Meaning(env, ps) <==> Fails(env, ps) || NothingRescanned(ps, vals)
  {
    if Lone(ps) {
      LoneMeansItsValue(env, ps);
      NothingRescannedAlone(ps, vals);
    } else {
      WholeExactly(ps);
      LoopIsExact(env, ps, vals);
    }
  }

  /** So a template without stray closing braces, whose values hold no opening brace, always means
      what it says. */
  lemma ExpandStringIsMeaning(env: Env, ps: seq<Piece>)
    requires PiecesOk(ps) && NoEmptyText(ps) && OpenFree(env, ps) && !Contains(Render(ps), "\\{{") && !StrayClose(ps)
    ensures ExpandString(env, Render(ps)) == Meaning(env, ps)
  {
    TextIsStructured(env, ps);
    ExpandStringIsExact(env, ps, AsText(env));
  }

  lemma {:induction false} EndIsKept(env: Env, ps: seq<Piece>)
    requires |ps| > 0 && ps[|ps| - 1].Lit? && PieceText(ps[|ps| - 1]) != "" && Simultaneous(env, ps).Ok?
    ensures Simultaneous(env, ps).value != ""
  {
    if |ps| > 1 {
      assert ps[1..][|ps| - 2] == ps[|ps| - 1];
      EndIsKept(env, ps[1..]);
    }
  }

  lemma {:induction false} LastIsText(ps: seq<Piece>)
    requires |ps| > 1 && ps[0].Var? && Variables(ps) == 1
    ensures ps[|ps| - 1].Lit?
  {
    NoVariablesLeft(ps[1..]);
    assert ps[1..][|ps| - 2] == ps[|ps| - 1];
  }

  lemma {:induction false} NoVariablesLeft(ps: seq<Piece>)
    requires Variables(ps) == 0
    ensures forall i :: 0 <= i < |ps| ==> ps[i].Lit?
  {
    if ps != [] {
      NoVariablesLeft(ps[1..]);
      assert forall i :: 0 < i < |ps| ==> ps[i] == ps[1..][i - 1];
    }
  }

  lemma {:induction false} SimultaneousFails(env: Env, ps: seq<Piece>)
    ensures Simultaneous(env, ps).Err? <==> Fails(env, ps)
  {
    if ps != [] {
      TailOf(env, ps, AsText(env));
      SimultaneousFails(env, ps[1..]);
    }
  }

  /** What the lookup of that odd path would have to give to agree with the meaning. */
  predicate OddPathAgrees(env: Env, ps: seq<Piece>, odd: Found)
  {
    match odd
    case Found(v) => Simultaneous(env, ps).Ok? && v == VStr(Simultaneous(env, ps).value)
    case Missing => false
    case NotAnObject => Simultaneous(env, ps).Err?
  }

  /** With stray closing braces the text is lost: a missing field makes the result blank, which is never
      what the template means. The result is the meaning exactly when the odd path happens to hold the
      very text the template means, or is broken while the template's own variable fails too. */
  lemma StrayCloseIsExact(env: Env, ps: seq<Piece>)
    requires PiecesOk(ps) && NoEmptyText(ps) && StrayClose(ps) && !Contains(Render(ps), "\\{{")
    ensures |Render(ps)| >= 4
    ensures ExpandString(env, Render(ps)) == Meaning(env, ps) <==>
              OddPathAgrees(env, ps, Lookup(env.data, OuterPath(Render(ps))))
    ensures Lookup(env.data, OuterPath(Render(ps))).Missing? ==> ExpandString(env, Render(ps)) == Ok(VStr(""))
    ensures Simultaneous(env, ps).Err? <==> Fails(env, ps)
  {
    StrayCloseLooksUp(env, ps);
    MeaningIsNotBlank(env, ps);
    SimultaneousFails(env, ps);
  }

  lemma MeaningIsNotBlank(env: Env, ps: seq<Piece>)
    requires NoEmptyText(ps) && StrayClose(ps)
    ensures Meaning(env, ps) != Ok(VStr(""))
  {
    LastIsText(ps);
    if Simultaneous(env, ps).Ok? {
      EndIsKept(env, ps);
    }
  }

  /** A rescan in one line: the value of the first variable is the text of the second. */
  lemma ValuesAreExpandedAgain(env: Env, a: Piece, b: Piece)
    requires a.Var? && b.Var? && PieceOk(a) && PieceOk(b)
    requires Substitute(env, a.path) == Ok(PieceText(b)) && Substitute(env, b.path).Ok?
    requires a.path != b.path && NoOpen(Substitute(env, b.path).value)
    ensures forall m :: m in FindAll(Render([a, b])) ==> m.full != ""
    ensures Sequential(env, Render([a, b]), FindAll(Render([a, b]))) != Simultaneous(env, [a, b])
  {
    var vals := (path: string) => if path == a.path then [b] else [Lit(Substitute(env, b.path).value)];
    RenderOne(b);
    RenderOne(Lit(Substitute(env, b.path).value));
    assert Rescanned([a, b], vals, 0, 1);
    VariablesOfOne(Lit(Substitute(env, b.path).value));
    assert Shallow([a, b], vals);
    assert !Fails(env, [a, b]);
    LoopIsExact(env, [a, b], vals);
  }
}
