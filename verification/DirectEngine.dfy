/** The direct matcher: a dynamic program over the pattern's structure. */
module DirectEngine {
  import opened Collections
  import opened Patterns
  import opened Matching

  // ----- composing results -----

  lemma {:induction false} SeqSound(parts: seq<AstPattern>, part: AstPattern, q: Query, states: seq<AstMatch>,
                                    mid: seq<AstMatch>, out: seq<AstMatch>)
    requires Sound(Seq(parts), q, states, mid) && Sound(part, q, mid, out)
    ensures Sound(Seq(parts + [part]), q, states, out)
  {
    forall m | m in out ensures Reached(Seq(parts + [part]), q, states, m) {
      assert Reached(part, q, mid, m);
      var n :| n in mid && From(part, q, n, m);
      assert Reached(Seq(parts), q, states, n);
      var s :| s in states && From(Seq(parts), q, s, n);
      SeqFrom(parts, part, q, s, n, m);
    }
  }

  lemma {:induction false} SeqFrom(parts: seq<AstPattern>, part: AstPattern, q: Query, s: AstMatch, n: AstMatch,
                                   m: AstMatch)
    requires From(Seq(parts), q, s, n) && From(part, q, n, m)
    ensures From(Seq(parts + [part]), q, s, m)
  {
    var right :| Parses(part, q, n, right) && m == Run(q, n, right);
    var left :| Parses(Seq(parts), q, s, left) && n == Run(q, s, left);
    SeqSnoc(parts, part, left, right);
    FromJoin(Seq(parts + [part]), q, s, left, n, right);
  }

  lemma {:induction false} SeqComplete(parts: seq<AstPattern>, part: AstPattern, q: Query, states: seq<AstMatch>,
                                       mid: seq<AstMatch>, out: seq<AstMatch>)
    requires Complete(Seq(parts), q, states, mid) && Complete(part, q, mid, out)
    ensures Complete(Seq(parts + [part]), q, states, out)
  {
    forall s, word | s in states && Parses(Seq(parts + [part]), q, s, word) ensures Covered(out, Run(q, s, word)) {
      var left, right := SeqSplit(parts, part, word);
      RunJoin(q, s, left, right);
      assert Covered(mid, Run(q, s, left));
      CoverThrough(part, q, mid, out, Run(q, s, left), right);
    }
  }

  /** If the middle state is covered, so is its extension. */
  lemma {:induction false} CoverThrough(p: AstPattern, q: Query, mid: seq<AstMatch>, out: seq<AstMatch>, m: AstMatch,
                                        word: seq<AstAtom>)
    requires Complete(p, q, mid, out) && Covered(mid, m)
    requires InLang(p, word) && Accepts(q, m.pos, word)
    ensures Covered(out, Run(q, m, word))
  {
    var n :| n in mid && n.pos == m.pos && AtMost(m, n);
    RunMonotone(q, m, n, word);
    assert Covered(out, Run(q, n, word));
    var o :| o in out && o.pos == Run(q, n, word).pos && AtMost(Run(q, n, word), o);
    assert AtMost(Run(q, m, word), o);
  }

  lemma {:induction false} EmptySeq(q: Query, states: seq<AstMatch>)
    ensures Sound(Seq([]), q, states, states) && Complete(Seq([]), q, states, states)
  {
    var none: seq<seq<AstAtom>> := [];
    assert Flatten(none) == [];
    assert InLang<AstAtom>(Seq([]), []);
    forall m | m in states ensures Reached(Seq([]), q, states, m) {
      assert Parses(Seq([]), q, m, []) && m == Run(q, m, []);
    }
    forall s, word | s in states && Parses(Seq([]), q, s, word) ensures Covered(states, Run(q, s, word)) {
      assert word == [];
    }
  }

  // ----- the engine -----

  method Apply(p: AstPattern, q: Query, states: seq<AstMatch>) returns (out: seq<AstMatch>)
    ensures Sound(p, q, states, out) && Complete(p, q, states, out)
    ensures Ascending(states) ==> Ascending(out)
    decreases p, 1
  {
    match p
    case Atom(atom) => out := ApplyAtom(atom, q, states);
    case Seq(parts) => out := ApplySeq(parts, q, states);
    case Alt(parts) => out := ApplyAlt(parts, q, states);
    case Opt(body) => out := ApplyOpt(body, q, states);
    case Rep(body) =>
      ghost var expanded;
      out, expanded := ApplyRep(body, q, states);
  }

  method ApplyAtom(atom: AstAtom, q: Query, states: seq<AstMatch>) returns (out: seq<AstMatch>)
    ensures Sound(Atom(atom), q, states, out) && Complete(Atom(atom), q, states, out)
    ensures Ascending(out)
  {
    var moved := [];
    for i := 0 to |states|
      invariant forall m | m in moved :: exists s | s in states :: StepsTo(q, s, atom, m)
      invariant forall j | 0 <= j < i && states[j].pos < |q.elements| && Fits(atom, q.elements[states[j].pos])
        :: Advance(q, states[j], atom) in moved
    {
      var state := states[i];
      if state.pos < |q.elements| && Fits(atom, q.elements[state.pos]) {
        assert StepsTo(q, state, atom, Advance(q, state, atom));
        moved := moved + [Advance(q, state, atom)];
      }
    }
    out := Dedup(moved);
    forall m | m in out ensures Reached(Atom(atom), q, states, m) {
      var s :| s in states && StepsTo(q, s, atom, m);
      AtomRun(q, s, atom);
      assert Parses(Atom(atom), q, s, [atom]);
    }
    forall s, word | s in states && Parses(Atom(atom), q, s, word) ensures Covered(out, Run(q, s, word)) {
      assert word == [atom] && Fits(word[0], q.elements[s.pos + 0]);
      AtomRun(q, s, atom);
      assert Advance(q, s, atom) in moved;
      assert Covered(out, Advance(q, s, atom));
    }
  }

  ghost predicate StepsTo(q: Query, s: AstMatch, atom: AstAtom, m: AstMatch) {
    s.pos < |q.elements| && Fits(atom, q.elements[s.pos]) && m == Advance(q, s, atom)
  }

  lemma {:induction false} AtomRun(q: Query, s: AstMatch, atom: AstAtom)
    requires s.pos < |q.elements| && Fits(atom, q.elements[s.pos])
    ensures Accepts(q, s.pos, [atom]) && Run(q, s, [atom]) == Advance(q, s, atom)
  {
    assert [atom][1..] == [];
  }

  method ApplySeq(parts: seq<AstPattern>, q: Query, states: seq<AstMatch>) returns (out: seq<AstMatch>)
    ensures Sound(Seq(parts), q, states, out) && Complete(Seq(parts), q, states, out)
    ensures Ascending(states) ==> Ascending(out)
    decreases parts, 0
  {
    out := states;
    EmptySeq(q, states);
    assert parts[..0] == [];
    for i := 0 to |parts|
      invariant Sound(Seq(parts[..i]), q, states, out) && Complete(Seq(parts[..i]), q, states, out)
      invariant Ascending(states) ==> Ascending(out)
    {
      var next := Apply(parts[i], q, out);
      SeqSound(parts[..i], parts[i], q, states, out, next);
      SeqComplete(parts[..i], parts[i], q, states, out, next);
      assert parts[..i + 1] == parts[..i] + [parts[i]];
      out := next;
    }
    assert parts[..|parts|] == parts;
  }

  method ApplyAlt(parts: seq<AstPattern>, q: Query, states: seq<AstMatch>) returns (out: seq<AstMatch>)
    ensures Sound(Alt(parts), q, states, out) && Complete(Alt(parts), q, states, out)
    ensures Ascending(out)
    decreases parts, 0
  {
    var all := [];
    for i := 0 to |parts|
      invariant Sound(Alt(parts), q, states, all)
      invariant forall j | 0 <= j < i :: Complete(parts[j], q, states, all)
    {
      var branch := Apply(parts[i], q, states);
      AltExtend(parts, i, q, states, all, branch);
      all := all + branch;
    }
    out := Dedup(all);
    forall s, word | s in states && Parses(Alt(parts), q, s, word) ensures Covered(out, Run(q, s, word)) {
      var j :| 0 <= j < |parts| && InLang(parts[j], word);
      assert Covered(all, Run(q, s, word));
      CoveredMore(all, out, Run(q, s, word));
    }
  }

  lemma {:induction false} CoveredMore(all: seq<AstMatch>, out: seq<AstMatch>, m: AstMatch)
    requires Covered(all, m) && AllCovered(out, all)
    ensures Covered(out, m)
  {
    var a :| a in all && a.pos == m.pos && AtMost(m, a);
    assert Covered(out, a);
    var o :| o in out && o.pos == a.pos && AtMost(a, o);
    assert AtMost(m, o);
  }

  lemma {:induction false} AltExtend(parts: seq<AstPattern>, i: nat, q: Query, states: seq<AstMatch>,
                                     all: seq<AstMatch>, branch: seq<AstMatch>)
    requires i < |parts| && Sound(Alt(parts), q, states, all) &&
             forall j | 0 <= j < i :: Complete(parts[j], q, states, all)
    requires Sound(parts[i], q, states, branch) && Complete(parts[i], q, states, branch)
    ensures Sound(Alt(parts), q, states, all + branch)
    ensures forall j | 0 <= j <= i :: Complete(parts[j], q, states, all + branch)
  {
    forall m | m in branch ensures Reached(Alt(parts), q, states, m) {
      assert Reached(parts[i], q, states, m);
      var s :| s in states && From(parts[i], q, s, m);
      var word :| Parses(parts[i], q, s, word) && m == Run(q, s, word);
      assert Parses(Alt(parts), q, s, word);
    }
    forall j, s, word | 0 <= j <= i && s in states && Parses(parts[j], q, s, word)
      ensures Covered(all + branch, Run(q, s, word)) {
      if j < i {
        assert Covered(all, Run(q, s, word));
      } else {
        assert Covered(branch, Run(q, s, word));
      }
    }
  }

  method ApplyOpt(body: AstPattern, q: Query, states: seq<AstMatch>) returns (out: seq<AstMatch>)
    ensures Sound(Opt(body), q, states, out) && Complete(Opt(body), q, states, out)
    ensures Ascending(out)
    decreases body, 2
  {
    var inner := Apply(body, q, states);
    out := Dedup(states + inner);
    OptSound(body, q, states, inner, out);
    OptComplete(body, q, states, inner, out);
  }

  lemma {:induction false} OptSound(body: AstPattern, q: Query, states: seq<AstMatch>, inner: seq<AstMatch>,
                                    out: seq<AstMatch>)
    requires Sound(body, q, states, inner) && forall m | m in out :: m in states || m in inner
    ensures Sound(Opt(body), q, states, out)
  {
    forall m | m in out ensures Reached(Opt(body), q, states, m) {
      if m in states {
        assert Parses(Opt(body), q, m, []) && m == Run(q, m, []);
        assert From(Opt(body), q, m, m);
      } else {
        assert Reached(body, q, states, m);
        var s :| s in states && From(body, q, s, m);
        var word :| Parses(body, q, s, word) && m == Run(q, s, word);
        assert Parses(Opt(body), q, s, word);
      }
    }
  }

  lemma {:induction false} OptComplete(body: AstPattern, q: Query, states: seq<AstMatch>, inner: seq<AstMatch>,
                                       out: seq<AstMatch>)
    requires Complete(body, q, states, inner) && AllCovered(out, states + inner)
    ensures Complete(Opt(body), q, states, out)
  {
    forall s, word | s in states && Parses(Opt(body), q, s, word) ensures Covered(out, Run(q, s, word)) {
      if word == [] {
        assert Covered(out, s);
      } else {
        assert Covered(inner, Run(q, s, word));
        CoveredMore(inner, out, Run(q, s, word));
      }
    }
  }

  // ----- repetition -----

  lemma {:induction false} RepNone(body: AstPattern, q: Query, m: AstMatch)
    ensures From(Rep(body), q, m, m)
  {
    var none: seq<seq<AstAtom>> := [];
    assert Flatten(none) == [] && forall x | x in none :: InLang(body, x);
    assert Parses(Rep(body), q, m, []) && m == Run(q, m, []);
  }

  lemma {:induction false} RepMore(body: AstPattern, q: Query, s: AstMatch, m: AstMatch, n: AstMatch)
    requires From(Rep(body), q, s, m) && From(body, q, m, n)
    ensures From(Rep(body), q, s, n)
  {
    var left :| Parses(Rep(body), q, s, left) && m == Run(q, s, left);
    var right :| Parses(body, q, m, right) && n == Run(q, m, right);
    RepSnoc(body, left, right);
    FromJoin(Rep(body), q, s, left, m, right);
  }

  /** `n` is one more, non-empty iteration away from `m`. */
  ghost predicate Iterates(body: AstPattern, q: Query, m: AstMatch, n: AstMatch) {
    m.pos < n.pos && From(body, q, m, n)
  }

  /** The worklist state between two expansions: every match is an origin, what
      an expanded match steps to is covered, and everything expanded lies
      strictly below everything pending. */
  ghost predicate Table(origin: AstMatch -> bool, step: (AstMatch, AstMatch) -> bool, states: seq<AstMatch>,
                        matches: map<nat, AstMatch>, pending: set<nat>) {
    && Keyed(matches) && pending <= matches.Keys
    && (forall k | k in matches :: origin(matches[k]))
    && (forall s | s in states :: CoveredBy(matches, s))
    && (forall k, n | k in matches && k !in pending && step(matches[k], n) :: CoveredBy(matches, n))
    && (forall k, j | k in matches && k !in pending && j in pending :: k < j)
  }

  /** Skipping empty iterations loses nothing: following any factorization
      never leaves what a fully expanded table covers. */
  lemma {:induction false} RepCovers(body: AstPattern, q: Query, matches: map<nat, AstMatch>, m: AstMatch,
                                     words: seq<seq<AstAtom>>)
    requires Keyed(matches) && forall k, n | k in matches && Iterates(body, q, matches[k], n) :: CoveredBy(matches, n)
    requires CoveredBy(matches, m) && forall x | x in words :: InLang(body, x) && x != []
    requires Accepts(q, m.pos, Flatten(words))
    ensures CoveredBy(matches, Run(q, m, Flatten(words)))
    decreases |words|
  {
    if words != [] {
      var word := words[0];
      RunJoin(q, m, word, Flatten(words[1..]));
      RepCoversOne(body, q, matches, m, word);
      assert forall x | x in words[1..] :: x in words;
      RepCovers(body, q, matches, Run(q, m, word), words[1..]);
    }
  }

  lemma {:induction false} RepCoversOne(body: AstPattern, q: Query, matches: map<nat, AstMatch>, m: AstMatch,
                                        word: seq<AstAtom>)
    requires Keyed(matches) && forall k, n | k in matches && Iterates(body, q, matches[k], n) :: CoveredBy(matches, n)
    requires CoveredBy(matches, m) && InLang(body, word) && word != [] && Accepts(q, m.pos, word)
    ensures CoveredBy(matches, Run(q, m, word))
  {
    var best := matches[m.pos];
    RunMonotone(q, m, best, word);
    assert Parses(body, q, best, word);
    assert Iterates(body, q, best, Run(q, best, word));
    assert CoveredBy(matches, Run(q, best, word));
  }

  lemma {:induction false} RepComplete(body: AstPattern, q: Query, states: seq<AstMatch>, matches: map<nat, AstMatch>,
                                       out: seq<AstMatch>)
    requires Keyed(matches) && forall k, n | k in matches && Iterates(body, q, matches[k], n) :: CoveredBy(matches, n)
    requires forall s | s in states :: CoveredBy(matches, s)
    requires forall m :: m in out <==> m.pos in matches && matches[m.pos] == m
    ensures Complete(Rep(body), q, states, out)
  {
    forall s, word | s in states && Parses(Rep(body), q, s, word) ensures Covered(out, Run(q, s, word)) {
      var words: seq<seq<AstAtom>> :| Flatten(words) == word && forall x | x in words :: InLang(body, x);
      RepCovers(body, q, matches, s, NonEmpty(words));
      assert matches[Run(q, s, word).pos] in out;
    }
  }

  method ApplyRep(body: AstPattern, q: Query, states: seq<AstMatch>)
    returns (out: seq<AstMatch>, ghost expanded: seq<nat>)
    ensures Sound(Rep(body), q, states, out) && Complete(Rep(body), q, states, out)
    ensures Ascending(out)
    // every end position is expanded exactly once, in increasing order
    ensures Increasing(expanded)
    ensures forall m | m in out :: m.pos in expanded
    decreases body, 4
  {
    ghost var origin := m => Reached(Rep(body), q, states, m);
    ghost var step := (m, n) => Iterates(body, q, m, n);
    var matches := Seeds(origin, step, states);
    forall s | s in states ensures origin(s) {
      RepNone(body, q, s);
    }
    matches, expanded := ExpandAll(body, q, states, origin, step, matches);
    out := IntoValues(matches);
    RepResult(body, q, states, origin, step, matches, out);
  }

  lemma {:induction false} RepResult(body: AstPattern, q: Query, states: seq<AstMatch>, origin: AstMatch -> bool,
                                     step: (AstMatch, AstMatch) -> bool,
                                     matches: map<nat, AstMatch>, out: seq<AstMatch>)
    requires forall m :: origin(m) <==> Reached(Rep(body), q, states, m)
    requires forall m, n :: step(m, n) <==> Iterates(body, q, m, n)
    requires Table(origin, step, states, matches, {})
    requires forall m :: m in out <==> m.pos in matches && matches[m.pos] == m
    ensures Sound(Rep(body), q, states, out) && Complete(Rep(body), q, states, out)
  {
    forall k, n | k in matches && Iterates(body, q, matches[k], n) ensures CoveredBy(matches, n) {
      assert step(matches[k], n);
    }
    RepComplete(body, q, states, matches, out);
    forall m | m in out ensures Reached(Rep(body), q, states, m) {
      assert origin(matches[m.pos]);
    }
  }

  method ExpandAll(body: AstPattern, q: Query, ghost states: seq<AstMatch>, ghost origin: AstMatch -> bool,
                   ghost step: (AstMatch, AstMatch) -> bool,
                   seeds: map<nat, AstMatch>)
    returns (matches: map<nat, AstMatch>, ghost expanded: seq<nat>)
    requires forall m :: origin(m) <==> Reached(Rep(body), q, states, m)
    requires forall m, n :: step(m, n) <==> Iterates(body, q, m, n)
    requires Table(origin, step, states, seeds, seeds.Keys)
    ensures Table(origin, step, states, matches, {})
    ensures Increasing(expanded) && forall k :: k in expanded <==> k in matches
    decreases body, 3
  {
    matches, expanded := seeds, [];
    var pending := seeds.Keys;
    ghost var universe := matches.Keys + Below(|q.elements| + 1);
    ghost var done: set<nat> := {};
    while pending != {}
      invariant Table(origin, step, states, matches, pending)
      invariant matches.Keys <= universe && done == matches.Keys - pending
      invariant Increasing(expanded) && forall k :: k in expanded <==> k in done
      decreases universe - done
    {
      ghost var position;
      matches, pending, position := ExpandFirst(body, q, states, origin, step, matches, pending);
      IncreasingSnoc(expanded, position);
      expanded := expanded + [position];
      done := done + {position};
    }
  }

  /** Applies the body to the first pending match and records what it reaches. */
  method ExpandFirst(body: AstPattern, q: Query, ghost states: seq<AstMatch>, ghost origin: AstMatch -> bool,
                     ghost step: (AstMatch, AstMatch) -> bool,
                     matches0: map<nat, AstMatch>, pending0: set<nat>)
    returns (matches: map<nat, AstMatch>, pending: set<nat>, ghost position: nat)
    requires forall m :: origin(m) <==> Reached(Rep(body), q, states, m)
    requires forall m, n :: step(m, n) <==> Iterates(body, q, m, n)
    requires Table(origin, step, states, matches0, pending0) && pending0 != {}
    ensures Table(origin, step, states, matches, pending)
    ensures position in pending0 && forall j | j in pending0 :: position <= j
    ensures matches.Keys - pending == matches0.Keys - pending0 + {position}
    ensures forall k | k in matches :: k in matches0 || k <= |q.elements|
    decreases body, 2
  {
    var first := First(pending0);
    position := first;
    var next := Apply(body, q, [matches0[first]]);
    var improved := Dedup(next);
    Expands(body, q, states, matches0[first], next, improved);
    matches, pending := Record(origin, step, states, matches0, pending0, first, improved, |q.elements|);
  }

  method Seeds(ghost origin: AstMatch -> bool, ghost step: (AstMatch, AstMatch) -> bool, states: seq<AstMatch>)
    returns (matches: map<nat, AstMatch>)
    ensures (forall s | s in states :: origin(s)) ==> Table(origin, step, states, matches, matches.Keys)
  {
    var seeds := Dedup(states);
    matches := map[];
    for i := 0 to |seeds|
      invariant Keyed(matches) && forall k | k in matches :: matches[k] in states
      invariant forall j | 0 <= j < i :: seeds[j].pos in matches && matches[seeds[j].pos] == seeds[j]
    {
      matches := matches[seeds[i].pos := seeds[i]];
    }
    forall s | s in states ensures CoveredBy(matches, s) {
      assert Covered(seeds, s);
      var o :| o in seeds && o.pos == s.pos && AtMost(s, o);
    }
  }

  /** What applying the body once to one recorded match yields. */
  lemma {:induction false} Expands(body: AstPattern, q: Query, states: seq<AstMatch>, m: AstMatch, next: seq<AstMatch>,
                                   improved: seq<AstMatch>)
    requires Reached(Rep(body), q, states, m)
    requires Sound(body, q, [m], next) && Complete(body, q, [m], next)
    requires (forall n | n in improved :: n in next) && AllCovered(improved, next)
    ensures forall n | n in improved && m.pos < n.pos :: Reached(Rep(body), q, states, n) && n.pos <= |q.elements|
    ensures forall n {:trigger Covered(improved, n)} | Iterates(body, q, m, n) :: Covered(improved, n)
  {
    forall n | n in improved && m.pos < n.pos ensures Reached(Rep(body), q, states, n) && n.pos <= |q.elements| {
      assert Reached(body, q, [m], n);
      var s :| s in states && From(Rep(body), q, s, m);
      RepMore(body, q, s, m, n);
      var word :| Parses(body, q, m, word) && n == Run(q, m, word);
      AcceptsInRange(q, m.pos, word);
    }
    forall n | Iterates(body, q, m, n) ensures Covered(improved, n) {
      var word :| Parses(body, q, m, word) && n == Run(q, m, word);
      assert m in [m] && Covered(next, Run(q, m, word));
      CoveredMore(next, improved, n);
    }
  }

  /** Folds the endpoints of one more iteration from `position` into the table. */
  method Record(ghost origin: AstMatch -> bool, ghost step: (AstMatch, AstMatch) -> bool, ghost states: seq<AstMatch>,
                matches0: map<nat, AstMatch>, pending0: set<nat>, position: nat, improved: seq<AstMatch>,
                    ghost bound: nat)
    returns (matches: map<nat, AstMatch>, pending: set<nat>)
    requires Table(origin, step, states, matches0, pending0)
    requires position in pending0 && forall j | j in pending0 :: position <= j
    requires forall n | n in improved && position < n.pos :: origin(n) && n.pos <= bound
    requires forall n {:trigger Covered(improved, n)} | step(matches0[position], n) ::
               position < n.pos && Covered(improved, n)
    ensures Table(origin, step, states, matches, pending)
    ensures matches.Keys - pending == matches0.Keys - pending0 + {position}
    ensures forall k | k in matches :: k in matches0 || k <= bound
  {
    matches, pending := matches0, pending0;
    for i := 0 to |improved|
      invariant Table(origin, step, states, matches, pending)
      invariant position in pending && matches[position] == matches0[position]
      invariant forall j | j in pending :: position <= j
      invariant matches.Keys - pending == matches0.Keys - pending0
      invariant forall k | k in matches :: k in matches0 || k <= bound
      invariant forall j | 0 <= j < i && position < improved[j].pos :: CoveredBy(matches, improved[j])
    {
      var state := improved[i];
      if state.pos > position {
        if state.pos !in matches {
          Stored(origin, step, states, matches, pending, state);
          pending := pending + {state.pos};
          matches := matches[state.pos := state];
        } else if IsBetter(state, matches[state.pos]) {
          // a forward endpoint improves before it is expanded
          assert state.pos in pending;
          Stored(origin, step, states, matches, pending, state);
          assert pending + {state.pos} == pending;
          matches := matches[state.pos := state];
        }
      }
    }
    pending := pending - {position};
    forall n | step(matches[position], n) ensures CoveredBy(matches, n) {
      assert Covered(improved, n);
      var o :| o in improved && o.pos == n.pos && AtMost(n, o);
    }
  }

  /** Storing a better match above everything expanded keeps the table. */
  lemma {:induction false} Stored(origin: AstMatch -> bool, step: (AstMatch, AstMatch) -> bool, states: seq<AstMatch>,
                                  matches: map<nat, AstMatch>, pending: set<nat>, state: AstMatch)
    requires Table(origin, step, states, matches, pending) && origin(state)
    requires state.pos in matches ==> IsBetter(state, matches[state.pos])
    requires forall k | k in matches && k !in pending :: k < state.pos
    ensures Table(origin, step, states, matches[state.pos := state], pending + {state.pos})
  {
    var after := matches[state.pos := state];
    forall n | CoveredBy(matches, n) ensures CoveredBy(after, n) {
    }
    forall k, n | k in after && k !in pending + {state.pos} && step(after[k], n) ensures CoveredBy(after, n) {
      assert step(matches[k], n) && CoveredBy(matches, n);
    }
  }
}
