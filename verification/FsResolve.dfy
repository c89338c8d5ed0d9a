/** Path resolution over a filesystem of directories, files and symbolic links:
    what `Path::canonicalize` computes, and what a resolved location means. */
module FsResolve {
  import opened Prelude

  /** A physical location: the names from the root down, with no link on the way. */
  type Loc = seq<string>

  /** A path as written: the pieces between slashes, so `""`, `"."` and `".."` may occur. */
  datatype Path = Path(absolute: bool, segs: seq<string>)

  datatype Node =
    | Dir
    | File
    | Link(target: Path)

  /** `nodes` maps every existing location to its node, `cwd` is the working directory and
      `linkLimit` the number of links one resolution may follow (`ELOOP` beyond it). */
  datatype FileSystem = FileSystem(nodes: map<Loc, Node>, cwd: Loc, linkLimit: nat) {

    /** The root is a directory, every entry sits in a directory, and the working directory exists. */
    ghost predicate Valid() {
      && IsDir([])
      && (forall loc {:trigger Anchored(loc)} | loc in nodes && loc != [] :: Anchored(loc))
      && IsDir(cwd)
    }

    /** `loc` is an entry with a proper name in an existing directory. */
    predicate Anchored(loc: Loc) {
      loc != [] && IsDir(Up(loc)) && IsName(loc[|loc|-1])
    }

    predicate IsDir(loc: Loc) {
      loc in nodes && nodes[loc].Dir?
    }

    /** `loc` exists and is reached from the root through directories only: no component of it is a link. */
    ghost predicate Physical(loc: Loc) {
      && loc in nodes && !nodes[loc].Link?
      && forall k | 0 <= k < |loc| :: IsDir(loc[..k])
    }
  }

  /** A name a directory entry can have. */
  predicate IsName(s: string) {
    s != "" && s != "." && s != ".." && '/' !in s
  }

  /** The physical parent; the root is its own parent. */
  function Up(loc: Loc): Loc {
    if loc == [] then [] else loc[..|loc|-1]
  }

  /** The outcome of a walk: where it ended and how many more links it may still follow. */
  datatype Spot = Spot(loc: Loc, links: nat)

  /** Follow `segs` from `cur`, expanding at most `links` symbolic links. */
  function Walk(fs: FileSystem, cur: Loc, segs: seq<string>, links: nat): (r: Option<Spot>)
    ensures r.Some? ==> r.value.links <= links
    decreases links, |segs|
  {
    if segs == [] then Some(Spot(cur, links))
    else if !fs.IsDir(cur) then None
    else
      var s, rest := segs[0], segs[1..];
      if s == "" || s == "." then Walk(fs, cur, rest, links)
      else if s == ".." then Walk(fs, Up(cur), rest, links)
      else if cur + [s] !in fs.nodes then None
      else match fs.nodes[cur + [s]]
        case Link(target) =>
          if links == 0 then None
          else Walk(fs, if target.absolute then [] else cur, target.segs + rest, links - 1)
        case _ => Walk(fs, cur + [s], rest, links)
  }

  /** Where resolution of `p` starts. */
  function Start(fs: FileSystem, p: Path): Loc {
    if p.absolute then [] else fs.cwd
  }

  /** The empty path names nothing. */
  predicate IsEmptyPath(p: Path) {
    !p.absolute && (p.segs == [] || p.segs == [""])
  }

  /** `Path::canonicalize`: the physical location `p` names, if it exists. */
  function Resolve(fs: FileSystem, p: Path): Option<Loc> {
    if IsEmptyPath(p) then None
    else match Walk(fs, Start(fs, p), p.segs, fs.linkLimit)
      case Some(spot) => Some(spot.loc)
      case None => None
  }

  /** The path that spells a location out from the root. */
  function Spell(loc: Loc): Path {
    Path(true, loc)
  }

  // ---------------------------------------------------------------- resolved means physical

  /** In a valid filesystem, every existing non-link is physical. */
  lemma {:induction false} ExistingIsPhysical(fs: FileSystem, loc: Loc)
    requires fs.Valid() && loc in fs.nodes && !fs.nodes[loc].Link?
    ensures fs.Physical(loc)
    decreases |loc|
  {
    if loc != [] {
      assert fs.Anchored(loc);
      ExistingIsPhysical(fs, Up(loc));
      forall k | 0 <= k < |loc|
        ensures fs.IsDir(loc[..k])
      {
        if k < |loc| - 1 {
          assert loc[..k] == Up(loc)[..k];
        }
      }
    }
  }

  /** Whatever links, dots and dot-dots a walk goes through, it ends at a physical location. */
  lemma {:induction false} WalkIsPhysical(fs: FileSystem, cur: Loc, segs: seq<string>, links: nat)
    requires fs.Valid() && fs.Physical(cur)
    ensures var r := Walk(fs, cur, segs, links); r.Some? ==> fs.Physical(r.value.loc)
    decreases links, |segs|
  {
    if segs != [] && fs.IsDir(cur) {
      var s, rest := segs[0], segs[1..];
      if s == "" || s == "." {
        WalkIsPhysical(fs, cur, rest, links);
      } else if s == ".." {
        assert cur != [] ==> fs.Anchored(cur);
        ExistingIsPhysical(fs, Up(cur));
        WalkIsPhysical(fs, Up(cur), rest, links);
      } else if cur + [s] in fs.nodes {
        match fs.nodes[cur + [s]]
        case Link(target) =>
          if links > 0 {
            ExistingIsPhysical(fs, []);
            WalkIsPhysical(fs, if target.absolute then [] else cur, target.segs + rest, links - 1);
          }
        case _ =>
          ExistingIsPhysical(fs, cur + [s]);
          WalkIsPhysical(fs, cur + [s], rest, links);
      }
    }
  }

  /** A resolved path names an existing location with no link on the way to it. */
  lemma ResolvedIsPhysical(fs: FileSystem, p: Path)
    requires fs.Valid()
    ensures Resolve(fs, p).Some? ==> fs.Physical(Resolve(fs, p).value)
  {
    ExistingIsPhysical(fs, Start(fs, p));
    WalkIsPhysical(fs, Start(fs, p), p.segs, fs.linkLimit);
  }

  // ---------------------------------------------------------------- walks compose

  /** Walking `a + b` is walking `a`, then `b` from there with the links left over. */
  lemma {:induction false} WalkCompose(fs: FileSystem, cur: Loc, a: seq<string>, b: seq<string>, links: nat)
    ensures Walk(fs, cur, a + b, links) ==
            match Walk(fs, cur, a, links)
            case Some(spot) => Walk(fs, spot.loc, b, spot.links)
            case None => None
    decreases links, |a|
  {
    if a == [] {
      assert a + b == b;
    } else {
      var s, rest := a[0], a[1..];
      assert (a + b)[0] == s && (a + b)[1..] == rest + b;
      if fs.IsDir(cur) {
        if s == "" || s == "." {
          WalkCompose(fs, cur, rest, b, links);
        } else if s == ".." {
          WalkCompose(fs, Up(cur), rest, b, links);
        } else if cur + [s] in fs.nodes {
          match fs.nodes[cur + [s]]
          case Link(target) =>
            if links > 0 {
              assert target.segs + (rest + b) == (target.segs + rest) + b;
              WalkCompose(fs, if target.absolute then [] else cur, target.segs + rest, b, links - 1);
            }
          case _ => WalkCompose(fs, cur + [s], rest, b, links);
        }
      }
    }
  }

  /** A successful walk is unchanged by a larger link budget. */
  lemma {:induction false} WalkMonotone(fs: FileSystem, cur: Loc, segs: seq<string>, links: nat, extra: nat)
    requires Walk(fs, cur, segs, links).Some?
    ensures var r := Walk(fs, cur, segs, links).value;
            Walk(fs, cur, segs, links + extra) == Some(Spot(r.loc, r.links + extra))
    decreases links, |segs|
  {
    if segs != [] {
      var s, rest := segs[0], segs[1..];
      if s == "" || s == "." {
        WalkMonotone(fs, cur, rest, links, extra);
      } else if s == ".." {
        WalkMonotone(fs, Up(cur), rest, links, extra);
      } else {
        match fs.nodes[cur + [s]]
        case Link(target) =>
          WalkMonotone(fs, if target.absolute then [] else cur, target.segs + rest, links - 1, extra);
        case _ => WalkMonotone(fs, cur + [s], rest, links, extra);
      }
    }
  }

  /** Entering an existing entry that is not a link. */
  lemma WalkEnter(fs: FileSystem, cur: Loc, s: string, rest: seq<string>, links: nat)
    requires fs.IsDir(cur) && IsName(s) && cur + [s] in fs.nodes && !fs.nodes[cur + [s]].Link?
    ensures Walk(fs, cur, [s] + rest, links) == Walk(fs, cur + [s], rest, links)
  {
    assert ([s] + rest)[1..] == rest;
  }

  /** Each component of a physical location enters an entry that is not a link. */
  lemma PhysicalComponent(fs: FileSystem, loc: Loc, k: nat)
    requires fs.Valid() && fs.Physical(loc) && k < |loc|
    ensures fs.IsDir(loc[..k]) && IsName(loc[k])
    ensures loc[..k] + [loc[k]] in fs.nodes && !fs.nodes[loc[..k] + [loc[k]]].Link?
  {
    var next := loc[..k+1];
    assert loc[..k] + [loc[k]] == next;
    if k + 1 < |loc| {
      assert fs.IsDir(next);
    } else {
      assert next == loc;
    }
    assert fs.Anchored(next) && next[|next|-1] == loc[k];
  }

  /** A physical location, spelled out from any of its own prefixes, is reached without following a link. */
  lemma {:induction false} WalkPhysical(fs: FileSystem, loc: Loc, k: nat, links: nat)
    requires fs.Valid() && fs.Physical(loc) && k <= |loc|
    ensures Walk(fs, loc[..k], loc[k..], links) == Some(Spot(loc, links))
    decreases |loc| - k
  {
    if k == |loc| {
      assert loc[..k] == loc;
    } else {
      PhysicalComponent(fs, loc, k);
      WalkEnter(fs, loc[..k], loc[k], loc[k+1..], links);
      assert [loc[k]] + loc[k+1..] == loc[k..];
      assert loc[..k] + [loc[k]] == loc[..k+1];
      WalkPhysical(fs, loc, k + 1, links);
    }
  }

  /** Resolution is idempotent: a resolved location resolves to itself. */
  lemma ResolveIdempotent(fs: FileSystem, p: Path)
    requires fs.Valid() && Resolve(fs, p).Some?
    ensures Resolve(fs, Spell(Resolve(fs, p).value)) == Resolve(fs, p)
  {
    ResolvedIsPhysical(fs, p);
    var loc := Resolve(fs, p).value;
    WalkPhysical(fs, loc, 0, fs.linkLimit);
    assert loc[..0] == [] && loc[0..] == loc;
  }

  // ---------------------------------------------------------------- spellings

  /** `a/./b` (and `a//b`) for `a/b`, wherever `a` leads to a directory. */
  lemma DotSpelling(fs: FileSystem, absolute: bool, a: seq<string>, dot: string, b: seq<string>)
    requires dot == "." || dot == ""
    requires var r := Walk(fs, Start(fs, Path(absolute, a)), a, fs.linkLimit);
             r.Some? ==> fs.IsDir(r.value.loc)
    requires !IsEmptyPath(Path(absolute, a + b))
    requires !IsEmptyPath(Path(absolute, a + [dot] + b))
    ensures Resolve(fs, Path(absolute, a + [dot] + b)) == Resolve(fs, Path(absolute, a + b))
  {
    var start := Start(fs, Path(absolute, a));
    assert a + [dot] + b == a + ([dot] + b);
    WalkCompose(fs, start, a, [dot] + b, fs.linkLimit);
    WalkCompose(fs, start, a, b, fs.linkLimit);
    assert ([dot] + b)[1..] == b;
  }

  /** Entering a directory and leaving it again. */
  lemma WalkInAndOut(fs: FileSystem, cur: Loc, x: string, b: seq<string>, links: nat)
    requires fs.IsDir(cur) && IsName(x) && fs.IsDir(cur + [x])
    ensures Walk(fs, cur, [x, ".."] + b, links) == Walk(fs, cur, b, links)
  {
    assert [x, ".."] + b == [x] + ([".."] + b);
    WalkEnter(fs, cur, x, [".."] + b, links);
    assert ([".."] + b)[1..] == b;
    assert Up(cur + [x]) == cur;
  }

  /** `a/x/../b` for `a/b`, wherever `a/x` is a directory and not a link. */
  lemma DotDotSpelling(fs: FileSystem, absolute: bool, a: seq<string>, x: string, b: seq<string>)
    requires IsName(x)
    requires var r := Walk(fs, Start(fs, Path(absolute, a)), a, fs.linkLimit);
             r.Some? && fs.IsDir(r.value.loc) && fs.IsDir(r.value.loc + [x])
    requires !IsEmptyPath(Path(absolute, a + b))
    ensures Resolve(fs, Path(absolute, a + [x, ".."] + b)) == Resolve(fs, Path(absolute, a + b))
  {
    var start := Start(fs, Path(absolute, a));
    var spot := Walk(fs, start, a, fs.linkLimit).value;
    assert a + [x, ".."] + b == a + ([x, ".."] + b);
    WalkCompose(fs, start, a, [x, ".."] + b, fs.linkLimit);
    WalkCompose(fs, start, a, b, fs.linkLimit);
    WalkInAndOut(fs, spot.loc, x, b, spot.links);
    assert |a + [x, ".."] + b| >= 2;
  }

  /** A walk that got through `a` gets from there to the same place with the full link budget. */
  lemma WalkResume(fs: FileSystem, cur: Loc, a: seq<string>, b: seq<string>, links: nat)
    requires Walk(fs, cur, a + b, links).Some?
    ensures var r := Walk(fs, cur, a, links);
            && r.Some?
            && Walk(fs, r.value.loc, b, links).Some?
            && Walk(fs, r.value.loc, b, links).value.loc == Walk(fs, cur, a + b, links).value.loc
  {
    WalkCompose(fs, cur, a, b, links);
    var spot := Walk(fs, cur, a, links).value;
    WalkMonotone(fs, spot.loc, b, spot.links, links - spot.links);
  }

  /** A path through a link, for the same path with its leading part spelled out physically. */
  lemma PrefixSpelling(fs: FileSystem, absolute: bool, a: seq<string>, b: seq<string>)
    requires fs.Valid()
    requires Resolve(fs, Path(absolute, a)).Some?
    requires Resolve(fs, Path(absolute, a + b)).Some?
    ensures var loc := Resolve(fs, Path(absolute, a)).value;
            Resolve(fs, Path(true, loc + b)) == Resolve(fs, Path(absolute, a + b))
  {
    var loc := Resolve(fs, Path(absolute, a)).value;
    WalkResume(fs, Start(fs, Path(absolute, a)), a, b, fs.linkLimit);
    ResolvedIsPhysical(fs, Path(absolute, a));
    WalkPhysical(fs, loc, 0, fs.linkLimit);
    assert loc[..0] == [] && loc[0..] == loc;
    WalkCompose(fs, [], loc, b, fs.linkLimit);
  }

  /** A path through a link, for the path with the target written in its place: below the root for an absolute target,
      below the link's own directory for a relative one. It costs one link. */
  lemma LinkSpelling(fs: FileSystem, dir: Loc, s: string, target: Path, rest: seq<string>, links: nat)
    requires fs.Valid() && fs.Physical(dir) && fs.IsDir(dir) && IsName(s)
    requires dir + [s] in fs.nodes && fs.nodes[dir + [s]] == Link(target)
    ensures target.absolute ==> Walk(fs, [], dir + ([s] + rest), links + 1) == Walk(fs, [], target.segs + rest, links)
    ensures !target.absolute ==>
              Walk(fs, [], dir + ([s] + rest), links + 1) == Walk(fs, [], dir + (target.segs + rest), links)
  {
    WalkFrom(fs, dir, [s] + rest, links + 1);
    WalkFrom(fs, dir, target.segs + rest, links);
    assert ([s] + rest)[1..] == rest;
  }

  /** Without links left, a path through a link does not resolve. */
  lemma LinkLimitEnds(fs: FileSystem, dir: Loc, s: string, target: Path, rest: seq<string>)
    requires fs.Valid() && fs.Physical(dir) && fs.IsDir(dir) && IsName(s)
    requires dir + [s] in fs.nodes && fs.nodes[dir + [s]] == Link(target)
    ensures Walk(fs, [], dir + ([s] + rest), 0) == None
  {
    WalkFrom(fs, dir, [s] + rest, 0);
  }

  /** A physical location, then anything. */
  lemma WalkFrom(fs: FileSystem, loc: Loc, segs: seq<string>, links: nat)
    requires fs.Valid() && fs.Physical(loc)
    ensures Walk(fs, [], loc + segs, links) == Walk(fs, loc, segs, links)
  {
    WalkPhysical(fs, loc, 0, links);
    assert loc[..0] == [] && loc[0..] == loc;
    WalkCompose(fs, [], loc, segs, links);
  }

  /** Dot-dot leads to the directory one component up, and the root is its own parent. */
  lemma DotDotIsParent(fs: FileSystem, dir: Loc, rest: seq<string>, links: nat)
    requires fs.Valid() && fs.Physical(dir) && fs.IsDir(dir)
    ensures dir != [] ==> Walk(fs, [], dir + ([".."] + rest), links) == Walk(fs, [], dir[..|dir|-1] + rest, links)
    ensures Walk(fs, [], [".."] + rest, links) == Walk(fs, [], rest, links)
  {
    assert ([".."] + rest)[1..] == rest;
    WalkFrom(fs, dir, [".."] + rest, links);
    if dir != [] {
      assert fs.Anchored(dir);
      ExistingIsPhysical(fs, Up(dir));
      WalkFrom(fs, Up(dir), rest, links);
    }
  }

  /** The empty path names nothing, however it is split. */
  lemma EmptyPathNamesNothing(fs: FileSystem)
    ensures Resolve(fs, Path(false, [])) == None && Resolve(fs, Path(false, [""])) == None
  {
  }

  /** Nothing lies below a file, not even its own dots. */
  lemma NothingBelowFile(fs: FileSystem, absolute: bool, a: seq<string>, b: seq<string>)
    requires Resolve(fs, Path(absolute, a)).Some? && !fs.IsDir(Resolve(fs, Path(absolute, a)).value) && b != []
    ensures Resolve(fs, Path(absolute, a + b)) == None
  {
    WalkCompose(fs, Start(fs, Path(absolute, a)), a, b, fs.linkLimit);
  }
}
