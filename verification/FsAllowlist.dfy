/** The filesystem connector's allow-list decision and what its answer means. */
module FsAllowlist {
  import opened Prelude
  import opened FsResolve

  // ---------------------------------------------------------------- std::path operations

  /** Drop the pieces that `Path::components` normalises away. */
  function Kept(segs: seq<string>): seq<string> {
    if segs == [] then []
    else (if segs[0] == "" || segs[0] == "." then [] else [segs[0]]) + Kept(segs[1..])
  }

  /** `Path::components` below the root: only a relative path's leading dot survives. */
  function Components(p: Path): seq<string> {
    (if !p.absolute && p.segs != [] && p.segs[0] == "." then ["."] else []) + Kept(p.segs)
  }

  /** `Path::parent`. */
  function Parent(p: Path): Option<Path> {
    var comps := Components(p);
    if comps == [] then None else Some(Path(p.absolute, comps[..|comps|-1]))
  }

  /** `Path::file_name`: the last component when it is a plain name. */
  function FileName(p: Path): Option<string> {
    var comps := Components(p);
    if comps == [] || comps[|comps|-1] == "." || comps[|comps|-1] == ".." then None
    else Some(comps[|comps|-1])
  }

  // ---------------------------------------------------------------- the decision

  /** The location the decision is about: the resolved path, or for a path that does
      not resolve, its resolved parent extended by its file name. */
  function Candidate(fs: FileSystem, p: Path): Option<Loc> {
    match Resolve(fs, p)
    case Some(loc) => Some(loc)
    case None =>
      match Parent(p)
      case None => None
      case Some(parent) =>
        match Resolve(fs, parent)
        case None => None
        case Some(dir) =>
          match FileName(p)
          case None => None
          case Some(name) => Some(dir + [name])
  }

  /** Entry `e` resolves to a component-wise prefix of `loc`. */
  predicate Covers(fs: FileSystem, e: Path, loc: Loc) {
    Resolve(fs, e).Some? && Resolve(fs, e).value <= loc
  }

  /** The answer the allow-list gives. */
  ghost predicate Within(fs: FileSystem, p: Path, allowlist: seq<Path>) {
    Candidate(fs, p).Some? && exists e | e in allowlist :: Covers(fs, e, Candidate(fs, p).value)
  }

  /** `is_path_within_allowlist`. */
  method IsPathWithinAllowlist(fs: FileSystem, path: Path, allowlist: seq<Path>) returns (answer: bool)
    ensures answer <==> Within(fs, path, allowlist)
    ensures answer <==>
              && Candidate(fs, path).Some?
              && exists e | e in allowlist ::
                   Resolve(fs, e).Some? && IsAtOrBelow(Resolve(fs, e).value, Candidate(fs, path).value)
  {
    WithinIff(fs, path, allowlist);
    var canonical: Loc;
    match Resolve(fs, path) {
      case Some(p) => canonical := p;
      case None =>
        match Parent(path) {
          case None => return false;
          case Some(parentPath) =>
            match Resolve(fs, parentPath) {
              case None => return false;
              case Some(parent) =>
                match FileName(path) {
                  case Some(filename) => canonical := parent + [filename];
                  case None => return false;
                }
            }
        }
    }
    for i := 0 to |allowlist|
      invariant forall j | 0 <= j < i :: !Covers(fs, allowlist[j], canonical)
    {
      match Resolve(fs, allowlist[i]) {
        case Some(allowed) =>
          if allowed <= canonical {
            assert allowlist[i] in allowlist && Covers(fs, allowlist[i], canonical);
            return true;
          }
        case None =>
      }
    }
    return false;
  }

  /** `loc` is `base` or lies below it: its first components are those of `base`. */
  ghost predicate IsAtOrBelow(base: Loc, loc: Loc) {
    exists k | 0 <= k <= |loc| :: loc[..k] == base
  }

  // ---------------------------------------------------------------- containment

  lemma CoversIff(fs: FileSystem, e: Path, loc: Loc)
    ensures Covers(fs, e, loc) <==> Resolve(fs, e).Some? && IsAtOrBelow(Resolve(fs, e).value, loc)
  {
    if Resolve(fs, e).Some? && Resolve(fs, e).value <= loc {
      assert loc[..|Resolve(fs, e).value|] == Resolve(fs, e).value;
    }
  }

  /** The answer is yes exactly when the decided location is at or below, at any depth, a location that some entry
      resolves to. */
  lemma WithinIff(fs: FileSystem, p: Path, allowlist: seq<Path>)
    ensures Within(fs, p, allowlist) <==>
              && Candidate(fs, p).Some?
              && exists e | e in allowlist ::
                   Resolve(fs, e).Some? && IsAtOrBelow(Resolve(fs, e).value, Candidate(fs, p).value)
  {
    if Candidate(fs, p).Some? {
      forall e
        ensures Covers(fs, e, Candidate(fs, p).value) <==>
                  Resolve(fs, e).Some? && IsAtOrBelow(Resolve(fs, e).value, Candidate(fs, p).value)
      {
        CoversIff(fs, e, Candidate(fs, p).value);
      }
    }
  }

  /** Whatever lies below an allowed location is allowed by the same list. */
  lemma BelowAllowedIsAllowed(fs: FileSystem, p: Path, q: Path, below: Loc, allowlist: seq<Path>)
    requires Within(fs, p, allowlist)
    requires Candidate(fs, q) == Some(Candidate(fs, p).value + below)
    ensures Within(fs, q, allowlist)
  {
    WithinIff(fs, p, allowlist);
    WithinIff(fs, q, allowlist);
    var loc := Candidate(fs, p).value;
    var e :| e in allowlist && Resolve(fs, e).Some? && IsAtOrBelow(Resolve(fs, e).value, loc);
    var k :| 0 <= k <= |loc| && loc[..k] == Resolve(fs, e).value;
    assert (loc + below)[..k] == loc[..k];
  }

  /** Every existing location at or below an entry's is allowed, spelled out from the root. */
  lemma EntryAllowsBelow(fs: FileSystem, e: Path, below: Loc, allowlist: seq<Path>)
    requires fs.Valid() && e in allowlist && Resolve(fs, e).Some?
    requires fs.Physical(Resolve(fs, e).value + below)
    ensures Within(fs, Spell(Resolve(fs, e).value + below), allowlist)
  {
    var base := Resolve(fs, e).value;
    var loc := base + below;
    WalkPhysical(fs, loc, 0, fs.linkLimit);
    assert loc[..0] == [] && loc[0..] == loc;
    assert Candidate(fs, Spell(loc)) == Some(loc);
    assert loc[..|base|] == base;
    WithinIff(fs, Spell(loc), allowlist);
  }

  /** An allow answer puts the decided location physically below the physical location of one entry;
      a location that does not exist yet lies in a directory chain strictly below or at that entry. */
  lemma Containment(fs: FileSystem, p: Path, allowlist: seq<Path>) returns (e: Path)
    requires fs.Valid() && Within(fs, p, allowlist)
    ensures e in allowlist && Resolve(fs, e).Some?
    ensures var base, loc := Resolve(fs, e).value, Candidate(fs, p).value;
            && fs.Physical(base) && base <= loc
            && (Resolve(fs, p).Some? ==> fs.Physical(loc))
            && (Resolve(fs, p).None? ==> loc != [] && fs.Physical(Up(loc)))
            && (loc !in fs.nodes ==> base <= Up(loc))
  {
    e :| e in allowlist && Covers(fs, e, Candidate(fs, p).value);
    ResolvedIsPhysical(fs, e);
    ResolvedIsPhysical(fs, p);
    if Resolve(fs, p).None? {
      ResolvedIsPhysical(fs, Parent(p).value);
      var base, loc := Resolve(fs, e).value, Candidate(fs, p).value;
      assert loc !in fs.nodes ==> base != loc;
    }
  }

  // ---------------------------------------------------------------- the answer is semantic

  /** An allow answer carries over to any spelling of the location and any list that resolves to as many locations. */
  lemma WithinTransfers(fs: FileSystem, p: Path, q: Path, l: seq<Path>, m: seq<Path>)
    requires Candidate(fs, p) == Candidate(fs, q)
    requires forall e | e in l && Resolve(fs, e).Some? :: exists d | d in m :: Resolve(fs, d) == Resolve(fs, e)
    requires Within(fs, p, l)
    ensures Within(fs, q, m)
  {
    var e :| e in l && Covers(fs, e, Candidate(fs, p).value);
    var d :| d in m && Resolve(fs, d) == Resolve(fs, e);
    assert Covers(fs, d, Candidate(fs, q).value);
  }

  /** Every spelling of a location gets the answer of the location itself, and so does every spelling
      of an allow-list: only the set of locations its entries resolve to matters. */
  lemma AnswerIsSemantic(fs: FileSystem, p: Path, q: Path, l: seq<Path>, m: seq<Path>)
    requires Candidate(fs, p) == Candidate(fs, q)
    requires forall e | e in l && Resolve(fs, e).Some? :: exists d | d in m :: Resolve(fs, d) == Resolve(fs, e)
    requires forall d | d in m && Resolve(fs, d).Some? :: exists e | e in l :: Resolve(fs, e) == Resolve(fs, d)
    ensures Within(fs, p, l) <==> Within(fs, q, m)
  {
    if Within(fs, p, l) {
      WithinTransfers(fs, p, q, l, m);
    }
    if Within(fs, q, m) {
      WithinTransfers(fs, q, p, m, l);
    }
  }

  /** A path that resolves gets the same answer as its canonical spelling, whatever links, dots and
      dot-dots it was written with; and the same holds when every entry is replaced by its canonical spelling. */
  lemma CanonicalSpellingSameAnswer(fs: FileSystem, p: Path, l: seq<Path>, m: seq<Path>)
    requires fs.Valid() && Resolve(fs, p).Some?
    requires |l| == |m|
    requires forall i | 0 <= i < |l| ::
               m[i] == if Resolve(fs, l[i]).Some? then Spell(Resolve(fs, l[i]).value) else l[i]
    ensures Within(fs, p, l) <==> Within(fs, Spell(Resolve(fs, p).value), m)
  {
    ResolveIdempotent(fs, p);
    forall i | 0 <= i < |l|
      ensures Resolve(fs, m[i]) == Resolve(fs, l[i])
    {
      if Resolve(fs, l[i]).Some? {
        ResolveIdempotent(fs, l[i]);
      }
    }
    forall e | e in l
      ensures exists d | d in m :: Resolve(fs, d) == Resolve(fs, e)
    {
      var i :| 0 <= i < |l| && l[i] == e;
      assert m[i] in m;
    }
    forall d | d in m
      ensures exists e | e in l :: Resolve(fs, e) == Resolve(fs, d)
    {
      var i :| 0 <= i < |m| && m[i] == d;
      assert l[i] in l;
    }
    AnswerIsSemantic(fs, p, Spell(Resolve(fs, p).value), l, m);
  }

  /** The answer for a concatenation is the disjunction of the answers, so order and repetition never
      matter and adding entries never revokes access. */
  lemma AllowlistUnion(fs: FileSystem, p: Path, l: seq<Path>, m: seq<Path>)
    ensures Within(fs, p, l + m) <==> Within(fs, p, l) || Within(fs, p, m)
    ensures (forall e | e in l :: e in m) && Within(fs, p, l) ==> Within(fs, p, m)
  {
  }

  // ---------------------------------------------------------------- where an access lands

  /** Where opening `segs` for creation ends up: links are followed, also a link whose target is
      missing, and only the final entry may be missing. */
  function Land(fs: FileSystem, cur: Loc, segs: seq<string>, links: nat): Option<Loc>
    decreases links, |segs|
  {
    if segs == [] then Some(cur)
    else if !fs.IsDir(cur) then None
    else
      var s, rest := segs[0], segs[1..];
      if s == "" || s == "." then Land(fs, cur, rest, links)
      else if s == ".." then Land(fs, Up(cur), rest, links)
      else if cur + [s] !in fs.nodes then (if rest == [] then Some(cur + [s]) else None)
      else match fs.nodes[cur + [s]]
        case Link(target) =>
          if links == 0 then None
          else Land(fs, if target.absolute then [] else cur, target.segs + rest, links - 1)
        case _ => Land(fs, cur + [s], rest, links)
  }

  /** The location an access to `p` reads, writes or creates. */
  function Landing(fs: FileSystem, p: Path): Option<Loc> {
    if IsEmptyPath(p) then None else Land(fs, Start(fs, p), p.segs, fs.linkLimit)
  }

  /** Landing is walking, except that it may end on a missing entry of an existing directory,
      and then only if the last piece of the path is a name. */
  lemma {:induction false} LandOrWalk(fs: FileSystem, cur: Loc, segs: seq<string>, links: nat)
    ensures var w, l := Walk(fs, cur, segs, links), Land(fs, cur, segs, links);
            && (w.Some? ==> l == Some(w.value.loc))
            && (w.None? && l.Some? ==>
                  && l.value !in fs.nodes && l.value != [] && fs.IsDir(Up(l.value))
                  && segs != [] && segs[|segs|-1] !in ["", ".", ".."])
    decreases links, |segs|
  {
    if segs != [] && fs.IsDir(cur) {
      var s, rest := segs[0], segs[1..];
      if s == "" || s == "." {
        LandOrWalk(fs, cur, rest, links);
      } else if s == ".." {
        LandOrWalk(fs, Up(cur), rest, links);
      } else if cur + [s] !in fs.nodes {
        assert Up(cur + [s]) == cur;
      } else {
        match fs.nodes[cur + [s]]
        case Link(target) =>
          if links > 0 {
            LandOrWalk(fs, if target.absolute then [] else cur, target.segs + rest, links - 1);
            assert rest != [] ==> (target.segs + rest)[|target.segs + rest|-1] == segs[|segs|-1];
          }
        case _ => LandOrWalk(fs, cur + [s], rest, links);
      }
    }
  }

  /** A walk through `a`, then landing from there. */
  lemma {:induction false} LandAfterWalk(fs: FileSystem, cur: Loc, a: seq<string>, b: seq<string>, links: nat)
    requires Walk(fs, cur, a, links).Some?
    ensures var spot := Walk(fs, cur, a, links).value; Land(fs, cur, a + b, links) == Land(fs, spot.loc, b, spot.links)
    decreases links, |a|
  {
    if a == [] {
      assert a + b == b;
    } else {
      var s, rest := a[0], a[1..];
      assert (a + b)[0] == s && (a + b)[1..] == rest + b;
      if s == "" || s == "." {
        LandAfterWalk(fs, cur, rest, b, links);
      } else if s == ".." {
        LandAfterWalk(fs, Up(cur), rest, b, links);
      } else {
        match fs.nodes[cur + [s]]
        case Link(target) =>
          assert target.segs + (rest + b) == (target.segs + rest) + b;
          LandAfterWalk(fs, if target.absolute then [] else cur, target.segs + rest, b, links - 1);
        case _ => LandAfterWalk(fs, cur + [s], rest, b, links);
      }
    }
  }

  /** A walk through `a`, then landing on one more missing name. */
  lemma LandMissing(fs: FileSystem, cur: Loc, a: seq<string>, x: string, links: nat)
    requires var w := Walk(fs, cur, a, links);
             w.Some? && fs.IsDir(w.value.loc) && w.value.loc + [x] !in fs.nodes
    requires x !in ["", ".", ".."]
    ensures Land(fs, cur, a + [x], links) == Some(Walk(fs, cur, a, links).value.loc + [x])
  {
    LandAfterWalk(fs, cur, a, [x], links);
  }

  /** Landing goes through a link, also one whose target is missing, exactly as the target written in its place does. */
  lemma LinkLands(fs: FileSystem, dir: Loc, s: string, target: Path, rest: seq<string>, links: nat)
    requires fs.Valid() && fs.Physical(dir) && fs.IsDir(dir) && IsName(s)
    requires dir + [s] in fs.nodes && fs.nodes[dir + [s]] == Link(target)
    ensures target.absolute ==> Land(fs, [], dir + ([s] + rest), links + 1) == Land(fs, [], target.segs + rest, links)
    ensures !target.absolute ==>
              Land(fs, [], dir + ([s] + rest), links + 1) == Land(fs, [], dir + (target.segs + rest), links)
  {
    WalkPhysical(fs, dir, 0, links + 1);
    WalkPhysical(fs, dir, 0, links);
    assert dir[..0] == [] && dir[0..] == dir;
    LandAfterWalk(fs, [], dir, [s] + rest, links + 1);
    LandAfterWalk(fs, [], dir, target.segs + rest, links);
    assert ([s] + rest)[1..] == rest;
  }

  /** Putting dots and empty pieces back changes nothing for a walk that ends in a directory. */
  lemma {:induction false} WalkKept(fs: FileSystem, cur: Loc, a: seq<string>, links: nat)
    requires var w := Walk(fs, cur, Kept(a), links); w.Some? && fs.IsDir(w.value.loc)
    ensures Walk(fs, cur, a, links) == Walk(fs, cur, Kept(a), links)
    decreases |a|
  {
    if a != [] {
      var s, rest := a[0], a[1..];
      if s == "" || s == "." {
        assert Kept(a) == Kept(rest);
        WalkKept(fs, cur, rest, links);
      } else {
        assert a == [s] + rest;
        WalkCompose(fs, cur, [s], Kept(rest), links);
        WalkCompose(fs, cur, [s], rest, links);
        var spot := Walk(fs, cur, [s], links).value;
        WalkKept(fs, spot.loc, rest, spot.links);
      }
    }
  }

  lemma {:induction false} KeptLast(a: seq<string>, x: string)
    ensures Kept(a + [x]) == Kept(a) + (if x == "" || x == "." then [] else [x])
  {
    if a == [] {
      assert a + [x] == [x];
      assert [x][1..] == [];
    } else {
      assert (a + [x])[1..] == a[1..] + [x];
      KeptLast(a[1..], x);
    }
  }

  /** The components of a path that ends in a plain name. */
  lemma ComponentsOfNamed(p: Path, a: seq<string>, x: string)
    requires p.segs == a + [x] && x !in ["", ".", ".."]
    ensures FileName(p) == Some(x)
    ensures Parent(p) == Some(Path(p.absolute, Components(Path(p.absolute, a))))
  {
    KeptLast(a, x);
    assert Components(p) == Components(Path(p.absolute, a)) + [x];
  }

  /** A path and its components lead to the same directory. */
  lemma WalkComponents(fs: FileSystem, q: Path)
    requires fs.Valid()
    requires var w := Walk(fs, Start(fs, q), Components(q), fs.linkLimit); w.Some? && fs.IsDir(w.value.loc)
    ensures Walk(fs, Start(fs, q), q.segs, fs.linkLimit) == Walk(fs, Start(fs, q), Components(q), fs.linkLimit)
  {
    if Components(q) != Kept(q.segs) {
      assert Components(q)[1..] == Kept(q.segs);
    }
    WalkKept(fs, Start(fs, q), q.segs, fs.linkLimit);
  }

  /** When the path ends in its file name, its parent is the rest of the path. */
  lemma ParentWalk(fs: FileSystem, p: Path, a: seq<string>, x: string)
    requires fs.Valid() && p.segs == a + [x] && FileName(p) == Some(x)
    requires Parent(p).Some? && Resolve(fs, Parent(p).value).Some?
    requires fs.IsDir(Resolve(fs, Parent(p).value).value)
    ensures var w := Walk(fs, Start(fs, p), a, fs.linkLimit);
            w.Some? && w.value.loc == Resolve(fs, Parent(p).value).value
  {
    FileNameIsName(p);
    ComponentsOfNamed(p, a, x);
    WalkComponents(fs, Path(p.absolute, a));
  }

  lemma {:induction false} KeptIsKept(a: seq<string>)
    ensures forall s | s in Kept(a) :: s != "" && s != "."
  {
    if a != [] {
      KeptIsKept(a[1..]);
    }
  }

  lemma FileNameIsName(p: Path)
    ensures FileName(p).Some? ==> FileName(p).value !in ["", ".", ".."]
  {
    KeptIsKept(p.segs);
    var kept := Kept(p.segs);
    assert kept != [] ==> Components(p)[|Components(p)|-1] == kept[|kept|-1] && kept[|kept|-1] in kept;
  }

  /** The fallback's location, taken apart. */
  lemma FallbackParts(fs: FileSystem, p: Path)
    requires Resolve(fs, p).None? && Candidate(fs, p).Some?
    ensures FileName(p).Some? && FileName(p).value !in ["", ".", ".."]
    ensures Parent(p).Some? && Resolve(fs, Parent(p).value).Some?
    ensures var loc := Candidate(fs, p).value;
            && loc == Resolve(fs, Parent(p).value).value + [FileName(p).value]
            && loc != [] && Up(loc) == Resolve(fs, Parent(p).value).value
  {
    FileNameIsName(p);
  }

  /** Only a missing name in an existing directory, written last, is landed on without resolving. */
  lemma UnresolvedLanding(fs: FileSystem, p: Path)
    requires Resolve(fs, p).None? && Landing(fs, p).Some?
    ensures p.segs != [] && FileName(p) == Some(p.segs[|p.segs|-1])
    ensures var loc := Landing(fs, p).value; loc !in fs.nodes && fs.IsDir(Up(loc))
  {
    LandOrWalk(fs, Start(fs, p), p.segs, fs.linkLimit);
    var a, x := p.segs[..|p.segs|-1], p.segs[|p.segs|-1];
    assert p.segs == a + [x];
    ComponentsOfNamed(p, a, x);
  }

  /** A missing name in an existing directory, written last, is where an access lands. */
  lemma MissingNameLands(fs: FileSystem, p: Path)
    requires fs.Valid() && Resolve(fs, p).None? && Candidate(fs, p).Some?
    requires p.segs != [] && FileName(p) == Some(p.segs[|p.segs|-1])
    requires var loc := Candidate(fs, p).value; fs.IsDir(Up(loc)) && loc !in fs.nodes
    ensures Landing(fs, p) == Candidate(fs, p)
  {
    FallbackParts(fs, p);
    var a, x := p.segs[..|p.segs|-1], p.segs[|p.segs|-1];
    assert p.segs == a + [x];
    ParentWalk(fs, p, a, x);
    LandMissing(fs, Start(fs, p), a, x, fs.linkLimit);
  }

  /** For a path that does not resolve, the location the answer is about is where an access would land
      if and only if the path ends in its file name, its parent is a directory and the name is not taken there. */
  lemma FallbackLands(fs: FileSystem, p: Path)
    requires fs.Valid() && Resolve(fs, p).None? && Candidate(fs, p).Some?
    ensures Landing(fs, p) == Candidate(fs, p) <==>
              && p.segs != [] && FileName(p) == Some(p.segs[|p.segs|-1])
              && fs.IsDir(Up(Candidate(fs, p).value)) && Candidate(fs, p).value !in fs.nodes
  {
    if Landing(fs, p) == Candidate(fs, p) {
      UnresolvedLanding(fs, p);
    }
    if && p.segs != [] && FileName(p) == Some(p.segs[|p.segs|-1])
       && fs.IsDir(Up(Candidate(fs, p).value)) && Candidate(fs, p).value !in fs.nodes {
      MissingNameLands(fs, p);
    }
  }

  /** A path that resolves lands where the answer says. */
  lemma ResolvedLands(fs: FileSystem, p: Path)
    requires Resolve(fs, p).Some?
    ensures Landing(fs, p) == Candidate(fs, p)
  {
    LandOrWalk(fs, Start(fs, p), p.segs, fs.linkLimit);
  }

  // ---------------------------------------------------------------- an allowed access stays inside

  /** To land on a last name, the rest of the path must lead to a directory. */
  lemma {:induction false} LandAllButLast(fs: FileSystem, cur: Loc, a: seq<string>, x: string, links: nat)
    requires x !in ["", ".", ".."] && Land(fs, cur, a + [x], links).Some?
    ensures var w := Walk(fs, cur, a, links); w.Some? && fs.IsDir(w.value.loc)
    decreases links, |a|
  {
    if a == [] {
      assert a + [x] == [x];
    } else {
      var s, rest := a[0], a[1..];
      assert (a + [x])[0] == s && (a + [x])[1..] == rest + [x];
      if s == "" || s == "." {
        LandAllButLast(fs, cur, rest, x, links);
      } else if s == ".." {
        LandAllButLast(fs, Up(cur), rest, x, links);
      } else {
        var node := fs.nodes[cur + [s]];
        if node.Link? {
          assert node.target.segs + (rest + [x]) == (node.target.segs + rest) + [x];
          LandAllButLast(fs, if node.target.absolute then [] else cur, node.target.segs + rest, x, links - 1);
        } else {
          LandAllButLast(fs, cur + [s], rest, x, links);
        }
      }
    }
  }

  /** Dropping dots and empty pieces changes nothing for a walk that gets through. */
  lemma {:induction false} WalkDropsDots(fs: FileSystem, cur: Loc, a: seq<string>, links: nat)
    requires Walk(fs, cur, a, links).Some?
    ensures Walk(fs, cur, Kept(a), links) == Walk(fs, cur, a, links)
    decreases |a|
  {
    if a != [] {
      var s, rest := a[0], a[1..];
      if s == "" || s == "." {
        assert Kept(a) == Kept(rest);
        WalkDropsDots(fs, cur, rest, links);
      } else {
        assert a == [s] + rest;
        WalkCompose(fs, cur, [s], Kept(rest), links);
        WalkCompose(fs, cur, [s], rest, links);
        var spot := Walk(fs, cur, [s], links).value;
        WalkDropsDots(fs, spot.loc, rest, spot.links);
      }
    }
  }

  /** The parent of a path that ends in a plain name resolves to where the rest of the path leads. */
  lemma ParentResolves(fs: FileSystem, p: Path, a: seq<string>, x: string)
    requires fs.Valid() && p.segs == a + [x] && x !in ["", ".", ".."]
    requires Walk(fs, Start(fs, p), a, fs.linkLimit).Some?
    ensures FileName(p) == Some(x) && Parent(p).Some?
    ensures var spot := Walk(fs, Start(fs, p), a, fs.linkLimit).value;
            IsEmptyPath(Parent(p).value) || Resolve(fs, Parent(p).value) == Some(spot.loc)
  {
    ComponentsOfNamed(p, a, x);
    var q := Path(p.absolute, a);
    WalkDropsDots(fs, Start(fs, p), a, fs.linkLimit);
    if Components(q) != Kept(a) {
      assert Components(q)[1..] == Kept(a);
    }
  }

  /** A path that does not resolve but lands somewhere: the decided location is in the directory it lands in,
      and is taken there only by a link. */
  lemma UnresolvedDecision(fs: FileSystem, p: Path)
    requires fs.Valid() && Resolve(fs, p).None? && Candidate(fs, p).Some? && Landing(fs, p).Some?
    ensures p.segs != [] && FileName(p) == Some(p.segs[|p.segs|-1])
    ensures var loc := Candidate(fs, p).value;
            && fs.IsDir(Up(loc))
            && (loc in fs.nodes ==> fs.nodes[loc].Link?)
  {
    UnresolvedLanding(fs, p);
    FallbackParts(fs, p);
    var a, x := p.segs[..|p.segs|-1], p.segs[|p.segs|-1];
    assert p.segs == a + [x];
    LandAllButLast(fs, Start(fs, p), a, x, fs.linkLimit);
    ParentResolves(fs, p, a, x);
    WalkCompose(fs, Start(fs, p), a, [x], fs.linkLimit);
    assert [x][1..] == [];
  }

  /** An allowed access stays inside: it lands on a location that some entry covers, whether the path exists or names
      a new entry. The one case left over is a last name that is taken by a link whose target is missing. */
  lemma AllowedLandsInside(fs: FileSystem, p: Path, allowlist: seq<Path>) returns (e: Path)
    requires fs.Valid() && Within(fs, p, allowlist) && Landing(fs, p).Some?
    ensures e in allowlist
    ensures var loc := Candidate(fs, p).value;
            if Resolve(fs, p).Some? || loc !in fs.nodes then Covers(fs, e, Landing(fs, p).value)
            else fs.nodes[loc].Link?
  {
    e :| e in allowlist && Covers(fs, e, Candidate(fs, p).value);
    if Resolve(fs, p).Some? {
      ResolvedLands(fs, p);
    } else {
      UnresolvedDecision(fs, p);
      FallbackLands(fs, p);
    }
  }

  // ---------------------------------------------------------------- spellings of a name that does not exist yet

  /** A relative path does not start with a slash. */
  predicate IsRelativeText(absolute: bool, a: seq<string>) {
    absolute || (a != [] && a[0] != "")
  }

  /** A path that ends in a plain name and does not resolve is decided about that name below whatever the rest of the
      path resolves to, be it a directory or a file; when the rest, read by its components, resolves to nothing, the
      path is denied by every list. */
  lemma UnresolvedCandidate(fs: FileSystem, absolute: bool, a: seq<string>, x: string)
    requires fs.Valid() && IsName(x) && IsRelativeText(absolute, a)
    requires Resolve(fs, Path(absolute, a + [x])).None?
    ensures var dir := Resolve(fs, Path(absolute, a));
            dir.Some? ==> Candidate(fs, Path(absolute, a + [x])) == Some(dir.value + [x])
    ensures Resolve(fs, Path(absolute, Components(Path(absolute, a)))).None? ==>
              forall l :: !Within(fs, Path(absolute, a + [x]), l)
  {
    var p := Path(absolute, a + [x]);
    ComponentsOfNamed(p, a, x);
    NonEmptyComponents(absolute, a);
    if Resolve(fs, Path(absolute, a)).Some? {
      ParentResolves(fs, p, a, x);
    }
  }

  /** For a new name in an existing directory, however that directory is spelled, the decision is about that name in
      the physical directory, and that is where an access lands. */
  lemma NewNameCandidate(fs: FileSystem, absolute: bool, a: seq<string>, x: string)
    requires fs.Valid() && IsName(x) && IsRelativeText(absolute, a)
    requires var dir := Resolve(fs, Path(absolute, a)); dir.Some? && fs.IsDir(dir.value) && dir.value + [x] !in fs.nodes
    ensures var p, loc := Path(absolute, a + [x]), Resolve(fs, Path(absolute, a)).value + [x];
            Candidate(fs, p) == Some(loc) && Landing(fs, p) == Some(loc)
  {
    var p := Path(absolute, a + [x]);
    WalkCompose(fs, Start(fs, p), a, [x], fs.linkLimit);
    LandMissing(fs, Start(fs, p), a, x, fs.linkLimit);
    UnresolvedCandidate(fs, absolute, a, x);
  }

  lemma NonEmptyComponents(absolute: bool, a: seq<string>)
    requires IsRelativeText(absolute, a)
    ensures var q := Path(absolute, Components(Path(absolute, a))); !IsEmptyPath(q)
  {
    KeptIsKept(a);
    var comps := Components(Path(absolute, a));
    assert !absolute ==> comps != [] && comps[0] == a[0];
  }

  /** Pieces that `Path::components` drops at the end of a path. */
  predicate AreDots(dots: seq<string>) {
    forall i | 0 <= i < |dots| :: dots[i] == "" || dots[i] == "."
  }

  lemma {:induction false} KeptDropsDots(a: seq<string>, dots: seq<string>)
    requires AreDots(dots)
    ensures Kept(a + dots) == Kept(a)
    decreases |dots|
  {
    if dots == [] {
      assert a + dots == a;
    } else {
      var before, last := dots[..|dots|-1], dots[|dots|-1];
      assert a + dots == (a + before) + [last];
      KeptLast(a + before, last);
      KeptDropsDots(a, before);
    }
  }

  /** A new name written with a trailing slash or dot is decided like the name itself, although no access lands there. */
  lemma NewNameTrailingDots(fs: FileSystem, absolute: bool, a: seq<string>, x: string, dots: seq<string>)
    requires fs.Valid() && IsName(x) && IsRelativeText(absolute, a) && AreDots(dots) && dots != []
    requires var dir := Resolve(fs, Path(absolute, a)); dir.Some? && fs.IsDir(dir.value) && dir.value + [x] !in fs.nodes
    ensures var p := Path(absolute, a + [x] + dots);
            Candidate(fs, p) == Some(Resolve(fs, Path(absolute, a)).value + [x]) && Landing(fs, p) == None
  {
    var p, q := Path(absolute, a + [x] + dots), Path(absolute, a + [x]);
    var start := Start(fs, q);
    NewNameCandidate(fs, absolute, a, x);
    KeptDropsDots(a + [x], dots);
    assert p.segs[0] == q.segs[0] && Components(p) == Components(q);
    assert a + [x] + dots == a + ([x] + dots);
    WalkCompose(fs, start, a, [x] + dots, fs.linkLimit);
    LandAfterWalk(fs, start, a, [x] + dots, fs.linkLimit);
    WalkCompose(fs, start, a, [x], fs.linkLimit);
    assert ([x] + dots)[1..] == dots;
  }

  /** The parent of a bare name is the empty path, which names nothing. */
  lemma BareNameParent(x: string)
    requires IsName(x)
    ensures Parent(Path(false, [x])) == Some(Path(false, []))
  {
    assert [x] == [] + [x];
    ComponentsOfNamed(Path(false, [x]), [], x);
    assert Components(Path(false, [])) == [];
  }

  lemma BareNewNameUndecided(fs: FileSystem, x: string)
    requires fs.Valid() && IsName(x) && fs.cwd + [x] !in fs.nodes
    ensures Candidate(fs, Path(false, [x])) == None
  {
    BareNameParent(x);
    assert Walk(fs, fs.cwd, [x], fs.linkLimit).None?;
  }

  lemma BareNewNameLands(fs: FileSystem, x: string)
    requires fs.Valid() && IsName(x) && fs.cwd + [x] !in fs.nodes
    ensures Landing(fs, Path(false, [x])) == Some(fs.cwd + [x])
  {
    LandMissing(fs, fs.cwd, [], x, fs.linkLimit);
    assert [] + [x] == [x];
  }

  lemma DottedNewName(fs: FileSystem, x: string)
    requires fs.Valid() && IsName(x) && fs.cwd + [x] !in fs.nodes
    ensures var p := Path(false, [".", x]); Candidate(fs, p) == Landing(fs, p) == Some(fs.cwd + [x])
  {
    assert ["."][1..] == [];
    assert Walk(fs, fs.cwd, ["."], fs.linkLimit) == Walk(fs, fs.cwd, [], fs.linkLimit);
    NewNameCandidate(fs, false, ["."], x);
    assert ["."] + [x] == [".", x];
  }

  /** A bare new name is always denied, because the parent of `x` is the empty path; `./x` is decided about the working
      directory, where both of them land. */
  lemma BareNewNameDenied(fs: FileSystem, x: string, allowlist: seq<Path>)
    requires fs.Valid() && IsName(x) && fs.cwd + [x] !in fs.nodes
    ensures !Within(fs, Path(false, [x]), allowlist)
    ensures Candidate(fs, Path(false, [".", x])) == Some(fs.cwd + [x])
    ensures Landing(fs, Path(false, [x])) == Landing(fs, Path(false, [".", x])) == Some(fs.cwd + [x])
  {
    BareNewNameUndecided(fs, x);
    BareNewNameLands(fs, x);
    DottedNewName(fs, x);
  }

  /** Dot, dot-dot and link spellings of a new name get one answer: any two spellings of the same directory do. */
  lemma NewNameSameAnswer(
    fs: FileSystem, absolute1: bool, a1: seq<string>, absolute2: bool, a2: seq<string>, x: string, allowlist: seq<Path>)
    requires fs.Valid() && IsName(x) && IsRelativeText(absolute1, a1) && IsRelativeText(absolute2, a2)
    requires Resolve(fs, Path(absolute1, a1)) == Resolve(fs, Path(absolute2, a2))
    requires var dir := Resolve(fs, Path(absolute1, a1));
             dir.Some? && fs.IsDir(dir.value) && dir.value + [x] !in fs.nodes
    ensures Candidate(fs, Path(absolute1, a1 + [x])) == Candidate(fs, Path(absolute2, a2 + [x]))
    ensures Within(fs, Path(absolute1, a1 + [x]), allowlist) <==> Within(fs, Path(absolute2, a2 + [x]), allowlist)
  {
    NewNameCandidate(fs, absolute1, a1, x);
    NewNameCandidate(fs, absolute2, a2, x);
  }

  /** The dot-dot spelling `a/y/../b/x` of a new name `a/b/x`. */
  lemma NewNameDotDot(fs: FileSystem, absolute: bool, a: seq<string>, y: string, b: seq<string>, x: string)
    requires fs.Valid() && IsName(x) && IsName(y)
    requires IsRelativeText(absolute, a + b) && IsRelativeText(absolute, a + [y, ".."] + b)
    requires var r := Walk(fs, Start(fs, Path(absolute, a)), a, fs.linkLimit);
             r.Some? && fs.IsDir(r.value.loc) && fs.IsDir(r.value.loc + [y])
    requires var dir := Resolve(fs, Path(absolute, a + b));
             dir.Some? && fs.IsDir(dir.value) && dir.value + [x] !in fs.nodes
    ensures Candidate(fs, Path(absolute, a + [y, ".."] + b + [x])) == Candidate(fs, Path(absolute, a + b + [x]))
  {
    DotDotSpelling(fs, absolute, a, y, b);
    NewNameSameAnswer(fs, absolute, a + [y, ".."] + b, absolute, a + b, x, []);
  }

  /** The dot spelling `a/./b/x` (or `a//b/x`) of a new name `a/b/x`. */
  lemma NewNameDot(fs: FileSystem, absolute: bool, a: seq<string>, dot: string, b: seq<string>, x: string)
    requires fs.Valid() && IsName(x) && (dot == "." || dot == "")
    requires IsRelativeText(absolute, a + b) && IsRelativeText(absolute, a + [dot] + b)
    requires var r := Walk(fs, Start(fs, Path(absolute, a)), a, fs.linkLimit);
             r.Some? ==> fs.IsDir(r.value.loc)
    requires var dir := Resolve(fs, Path(absolute, a + b));
             dir.Some? && fs.IsDir(dir.value) && dir.value + [x] !in fs.nodes
    ensures Candidate(fs, Path(absolute, a + [dot] + b + [x])) == Candidate(fs, Path(absolute, a + b + [x]))
  {
    DotSpelling(fs, absolute, a, dot, b);
    NewNameSameAnswer(fs, absolute, a + [dot] + b, absolute, a + b, x, []);
  }

  /** A new name below a link, for the same name below the link's physical place. */
  lemma NewNameLink(fs: FileSystem, absolute: bool, a: seq<string>, b: seq<string>, x: string)
    requires fs.Valid() && IsName(x) && IsRelativeText(absolute, a + b)
    requires Resolve(fs, Path(absolute, a)).Some?
    requires var dir := Resolve(fs, Path(absolute, a + b));
             dir.Some? && fs.IsDir(dir.value) && dir.value + [x] !in fs.nodes
    ensures var loc := Resolve(fs, Path(absolute, a)).value;
            Candidate(fs, Path(true, loc + b + [x])) == Candidate(fs, Path(absolute, a + b + [x]))
  {
    PrefixSpelling(fs, absolute, a, b);
    NewNameSameAnswer(fs, true, Resolve(fs, Path(absolute, a)).value + b, absolute, a + b, x, []);
  }

  // ---------------------------------------------------------------- the case left over

  /** The root, two directories, and a link in one of them to a missing name in the other. */
  function LinkExample(): FileSystem {
    FileSystem(map[[] := Dir, ["a"] := Dir, ["b"] := Dir, ["a", "l"] := Link(Path(true, ["b", "new"]))], [], 40)
  }

  /** The condition matters: with the last name taken by a link to a missing target, the answer is about
      the link's own place while an access lands at the target. */
  lemma MissingTargetLandsElsewhere()
    ensures LinkExample().Valid()
    ensures Within(LinkExample(), Path(true, ["a", "l"]), [Path(true, ["a"])])
    ensures Landing(LinkExample(), Path(true, ["a", "l"])) == Some(["b", "new"])
    ensures !Covers(LinkExample(), Path(true, ["a"]), ["b", "new"])
  {
    LinkExampleValid();
    LinkExampleWalks();
    LinkExampleLands();
    LinkExampleCandidate();
    assert Covers(LinkExample(), Path(true, ["a"]), ["a", "l"]);
  }

  lemma LinkExampleValid()
    ensures LinkExample().Valid()
  {
    var fs := LinkExample();
    assert fs.Anchored(["a"]) && fs.Anchored(["b"]);
    assert Up(["a", "l"]) == ["a"] && fs.Anchored(["a", "l"]);
  }

  lemma LinkExampleCandidate()
    ensures Candidate(LinkExample(), Path(true, ["a", "l"])) == Some(["a", "l"])
  {
    var p := Path(true, ["a", "l"]);
    LinkExampleWalks();
    assert p.segs == ["a"] + ["l"];
    ComponentsOfNamed(p, ["a"], "l");
    assert ["a"][1..] == [] && Kept(["a"]) == ["a"];
    assert Components(Path(true, ["a"])) == ["a"];
    assert Parent(p) == Some(Path(true, ["a"]));
  }

  lemma LinkExampleWalks()
    ensures Resolve(LinkExample(), Path(true, ["a"])) == Some(["a"])
    ensures Resolve(LinkExample(), Path(true, ["a", "l"])) == None
  {
    var fs := LinkExample();
    assert [] + ["a"] == ["a"] && ["a"] + ["l"] == ["a", "l"] && [] + ["b"] == ["b"];
    WalkEnter(fs, [], "a", [], 40);
    WalkEnter(fs, [], "a", ["l"], 40);
    WalkEnter(fs, [], "b", ["new"], 39);
    assert ["b", "new"] + ["l"][1..] == ["b"] + ["new"];
  }

  lemma LinkExampleLands()
    ensures Landing(LinkExample(), Path(true, ["a", "l"])) == Some(["b", "new"])
  {
    var fs := LinkExample();
    assert [] + ["a"] == ["a"] && ["a"] + ["l"] == ["a", "l"] && [] + ["b"] == ["b"];
    WalkEnter(fs, [], "b", [], 39);
    assert ["b"] + ["new"] == ["b", "new"] && ["b", "new"] !in fs.nodes;
    LandMissing(fs, [], ["b"], "new", 39);
    assert ["b", "new"] + ["l"][1..] == ["b"] + ["new"];
    assert ["a", "l"][1..] == ["l"];
    assert Land(fs, ["a"], ["l"], 40) == Some(["b", "new"]);
  }
}
