/** Workspace keys, `scheme://segment/segment/...`: building, parsing, and the raw id a send action uses. */
module WorkspaceKey {
  import opened Prelude
  import opened Text

  datatype Parsed = Parsed(scheme: string, segments: seq<string>)

  datatype Extracted =
    | Id(id: string)
    | Empty
    | WrongScheme(got: string, want: string)

  /** `filter(|s| !s.is_empty())`. */
  function NonEmpty(parts: seq<string>): seq<string> {
    if parts == [] then []
    else (if parts[0] == "" then [] else [parts[0]]) + NonEmpty(parts[1..])
  }

  /** The part of a key after `://`. */
  function PathOf(segments: seq<string>): string {
    Join(NonEmpty(segments), '/')
  }

  /** `workspace_key::build`. */
  function Build(scheme: string, segments: seq<string>): string {
    scheme + "://" + PathOf(segments)
  }

  /** The loop `build` runs: a slash before every non-empty segment but the first. */
  method BuildLoop(scheme: string, segments: seq<string>) returns (s: string)
    ensures s == Build(scheme, segments)
  {
    s := scheme + "://";
    var first := true;
    for i := 0 to |segments|
      invariant first <==> NonEmpty(segments[..i]) == []
      invariant s == Build(scheme, segments[..i])
    {
      assert segments[..i+1] == segments[..i] + [segments[i]];
      BuildAppend(scheme, segments[..i], segments[i]);
      if segments[i] != "" {
        if !first {
          s := s + ['/'];
        }
        s := s + segments[i];
        first := false;
      }
    }
    assert segments[..|segments|] == segments;
  }

  /** One more segment. */
  lemma BuildAppend(scheme: string, parts: seq<string>, p: string)
    ensures Build(scheme, parts + [p]) ==
            if p == "" then Build(scheme, parts)
            else if NonEmpty(parts) == [] then Build(scheme, parts) + p
            else Build(scheme, parts) + ['/'] + p
    ensures NonEmpty(parts + [p]) == [] <==> NonEmpty(parts) == [] && p == ""
  {
    NonEmptyAppend(parts, p);
    if p != "" {
      JoinAppend(NonEmpty(parts), p, '/');
      if NonEmpty(parts) == [] {
        Regroup(scheme + "://", "", "", p);
      } else {
        Regroup(scheme + "://", Join(NonEmpty(parts), '/'), ['/'], p);
      }
    }
  }

  lemma Regroup(a: string, b: string, c: string, d: string)
    ensures a + (b + c + d) == (a + b) + c + d
    ensures b == "" && c == "" ==> a + d == (a + b) + d
  {
  }

  lemma {:induction false} NonEmptyConcat(a: seq<string>, b: seq<string>)
    ensures NonEmpty(a + b) == NonEmpty(a) + NonEmpty(b)
  {
    if a == [] {
      assert a + b == b;
    } else {
      var first := if a[0] == "" then [] else [a[0]];
      assert (a + b)[0] == a[0] && (a + b)[1..] == a[1..] + b;
      NonEmptyConcat(a[1..], b);
      assert first + (NonEmpty(a[1..]) + NonEmpty(b)) == (first + NonEmpty(a[1..])) + NonEmpty(b);
    }
  }

  lemma NonEmptyAppend(parts: seq<string>, p: string)
    ensures NonEmpty(parts + [p]) == if p == "" then NonEmpty(parts) else NonEmpty(parts) + [p]
  {
    NonEmptyConcat(parts, [p]);
    assert [p][1..] == [];
    assert NonEmpty([p]) == if p == "" then [] else [p];
  }

  lemma {:induction false} JoinAppend(parts: seq<string>, p: string, c: char)
    ensures Join(parts + [p], c) == if parts == [] then p else Join(parts, c) + [c] + p
  {
    if parts != [] {
      assert (parts + [p])[1..] == parts[1..] + [p];
      JoinAppend(parts[1..], p, c);
      assert |parts| == 1 ==> parts[1..] == [];
    }
  }

  /** `workspace_key::parse`. */
  function Parse(input: string): Option<Parsed> {
    var trimmed := Trim(input);
    var k := FindDelimiter(trimmed);
    if k == |trimmed| || k == 0 then None
    else
      var segments := NonEmpty(Split(trimmed[k + 3..], '/'));
      if segments == [] then None else Some(Parsed(trimmed[..k], segments))
  }

  function SchemeForConnector(name: string): string {
    if StartsWith(name, "connector-") then name[|"connector-"|..] else name
  }

  /** `extract_id_for_scheme`. */
  function ExtractId(input: string, connector: string): Extracted {
    match Parse(Trim(input))
    case Some(parsed) =>
      if parsed.scheme == SchemeForConnector(connector) then
        (if parsed.segments == [] then Empty else Id(parsed.segments[|parsed.segments|-1]))
      else WrongScheme(parsed.scheme, SchemeForConnector(connector))
    case None => if Trim(input) == "" then Empty else Id(Trim(input))
  }

  // ---------------------------------------------------------------- round trip

  /** A scheme that a key keeps: no `://` in it and no whitespace before it. */
  predicate IsScheme(scheme: string) {
    scheme != "" && DelimiterFree(scheme) && !IsWhitespace(scheme[0])
  }

  predicate IsSegment(s: string) {
    s != "" && '/' !in s
  }

  predicate AreSegments(segments: seq<string>) {
    forall i | 0 <= i < |segments| :: IsSegment(segments[i])
  }

  predicate EndsClean(s: string) {
    s != "" && !IsWhitespace(s[|s|-1])
  }

  /** Keys that survive the trip: a scheme without `://` or leading whitespace, at least one segment, none empty or
      with a slash, and no whitespace at the very end. */
  predicate RoundTrips(scheme: string, segments: seq<string>) {
    && IsScheme(scheme)
    && segments != [] && AreSegments(segments)
    && EndsClean(segments[|segments|-1])
  }

  lemma {:induction false} NonEmptyFixed(parts: seq<string>)
    requires AreSegments(parts)
    ensures NonEmpty(parts) == parts
  {
    if parts != [] {
      NonEmptyFixed(parts[1..]);
    }
  }

  lemma {:induction false} NonEmptyKeeps(parts: seq<string>)
    requires forall p | p in parts :: '/' !in p
    ensures AreSegments(NonEmpty(parts))
  {
    if parts != [] {
      NonEmptyKeeps(parts[1..]);
    }
  }

  /** A joined text ends in the last character of its last part. */
  lemma {:induction false} JoinLast(parts: seq<string>, c: char)
    requires parts != [] && parts[|parts|-1] != ""
    ensures var s, last := Join(parts, c), parts[|parts|-1];
            s != "" && s[|s|-1] == last[|last|-1]
  {
    if |parts| > 1 {
      JoinLast(parts[1..], c);
    }
  }

  /** Trimming leaves a well-formed key alone. */
  lemma KeyTrims(scheme: string, segments: seq<string>)
    requires RoundTrips(scheme, segments)
    ensures Trim(Build(scheme, segments)) == Build(scheme, segments)
  {
    var key := Build(scheme, segments);
    assert key[0] == scheme[0];
    BuiltEnd(scheme, segments);
    TrimFixed(key);
  }

  lemma KeyParses(scheme: string, segments: seq<string>)
    requires RoundTrips(scheme, segments)
    ensures Trim(Build(scheme, segments)) == Build(scheme, segments)
    ensures Parse(Build(scheme, segments)) == Some(Parsed(scheme, segments))
  {
    KeyTrims(scheme, segments);
    NonEmptyFixed(segments);
    var path := Join(segments, '/');
    var key := scheme + "://" + path;
    FindDelimiterAfter(scheme, path);
    assert key[..|scheme|] == scheme && key[|scheme| + 3..] == path;
    SplitJoin(segments, '/');
  }

  /** Dropping empty parts shortens a joined text. */
  lemma {:induction false} JoinNonEmptyShorter(parts: seq<string>, c: char)
    ensures |Join(NonEmpty(parts), c)| <= |Join(parts, c)|
  {
    if |parts| > 1 {
      JoinNonEmptyShorter(parts[1..], c);
      var rest := NonEmpty(parts[1..]);
      assert [] + rest == rest && ([parts[0]] + rest)[1..] == rest;
    } else if |parts| == 1 {
      assert parts[1..] == [];
      assert NonEmpty(parts) == if parts[0] == "" then [] else [parts[0]];
    }
  }

  /** What a parse yields: well-formed parts, from a trimmed text at least as long as the key they build. */
  lemma ParsedIsWellFormed(input: string)
    requires Parse(input).Some?
    ensures var r := Parse(input).value;
            && IsScheme(r.scheme)
            && r.segments != [] && AreSegments(r.segments)
            && |Build(r.scheme, r.segments)| <= |Trim(input)| <= |input|
  {
    TrimFixed(input);
    var t := Trim(input);
    var k := FindDelimiter(t);
    var rest := t[k + 3..];
    var r := Parse(input).value;
    assert forall i: nat | i < k && DelimiterAt(t[..k], i) :: DelimiterAt(t, i);
    NonEmptyKeeps(Split(rest, '/'));
    NonEmptyFixed(r.segments);
    JoinNonEmptyShorter(Split(rest, '/'), '/');
    JoinSplit(rest, '/');
  }

  lemma TrippedRoundTrips(scheme: string, segments: seq<string>)
    requires Parse(Build(scheme, segments)) == Some(Parsed(scheme, segments))
    ensures RoundTrips(scheme, segments)
  {
    var key := Build(scheme, segments);
    ParsedIsWellFormed(key);
    BuiltEnd(scheme, segments);
    TrimFixed(key);
  }

  /** A built key ends in the last character of its last segment. */
  lemma BuiltEnd(scheme: string, segments: seq<string>)
    requires segments != [] && AreSegments(segments)
    ensures var key, last := Build(scheme, segments), segments[|segments|-1];
            key != "" && key[|key|-1] == last[|last|-1]
  {
    NonEmptyFixed(segments);
    JoinLast(segments, '/');
  }

  /** `parse` undoes `build` exactly on the keys that `RoundTrips` describes. */
  lemma RoundTripIff(scheme: string, segments: seq<string>)
    ensures Parse(Build(scheme, segments)) == Some(Parsed(scheme, segments)) <==> RoundTrips(scheme, segments)
  {
    if RoundTrips(scheme, segments) {
      KeyParses(scheme, segments);
    }
    if Parse(Build(scheme, segments)) == Some(Parsed(scheme, segments)) {
      TrippedRoundTrips(scheme, segments);
    }
  }

  /** Whatever parses is a spelling of one canonical key: building that key and parsing it again gives the same
      parts, exactly when the last segment does not end in whitespace (which a trailing slash can hide). */
  lemma CanonicalKeyIff(input: string)
    requires Parse(input).Some?
    ensures var r := Parse(input).value;
            && r.segments != []
            && (Parse(Build(r.scheme, r.segments)) == Some(r) <==> EndsClean(r.segments[|r.segments|-1]))
  {
    ParsedIsWellFormed(input);
    var r := Parse(input).value;
    RoundTripIff(r.scheme, r.segments);
  }

  // ---------------------------------------------------------------- the id a key addresses

  /** An id that stands as one segment and that trimming leaves alone. */
  predicate IsCleanSegment(s: string) {
    IsSegment(s) && EndsClean(s)
  }

  /** The segments `parse` finds in the text after `://`. */
  function Pieces(path: string): seq<string> {
    NonEmpty(Split(TrimEnd(path), '/'))
  }

  /** Trimming a text with a scheme trims its path. */
  lemma SchemeTrims(scheme: string, path: string)
    requires IsScheme(scheme)
    ensures var trimmed := scheme + "://" + TrimEnd(path);
            Trim(scheme + "://" + path) == trimmed && Trim(trimmed) == trimmed
  {
    var key := scheme + "://" + path;
    assert key[0] == scheme[0];
    TrimEndAfter(scheme + "://", path);
    TrimFixed(key);
    TrimFixed(Trim(key));
  }

  /** What `parse` makes of a trimmed text with a scheme. */
  lemma SchemeParses(scheme: string, trimmedPath: string)
    requires IsScheme(scheme) && Trim(scheme + "://" + trimmedPath) == scheme + "://" + trimmedPath
    ensures var pieces := NonEmpty(Split(trimmedPath, '/'));
            Parse(scheme + "://" + trimmedPath) == if pieces == [] then None else Some(Parsed(scheme, pieces))
  {
    var key := scheme + "://" + trimmedPath;
    FindDelimiterAfter(scheme, trimmedPath);
    assert key[..|scheme|] == scheme && key[|scheme| + 3..] == trimmedPath;
  }

  /** What `extract_id_for_scheme` makes of any text with a scheme: the last piece for the scheme's own connector,
      an error for any other, and the text itself when there is no piece at all. */
  lemma PathExtracts(scheme: string, path: string, connector: string)
    requires IsScheme(scheme)
    ensures var pieces, want := Pieces(path), SchemeForConnector(connector);
            ExtractId(scheme + "://" + path, connector) ==
            if pieces == [] then Id(scheme + "://" + TrimEnd(path))
            else if want == scheme then Id(pieces[|pieces|-1])
            else WrongScheme(scheme, want)
  {
    SchemeTrims(scheme, path);
    SchemeParses(scheme, TrimEnd(path));
  }

  /** A path cut at a slash, with no whitespace before it. */
  lemma PiecesCut(a: string, b: string)
    requires EndsClean(a)
    ensures Pieces(a + ['/'] + b) == Pieces(a) + Pieces(b)
  {
    assert a + ['/'] + b == (a + ['/']) + b;
    TrimEndAfter(a + ['/'], b);
    SplitConcat(a, TrimEnd(b), '/');
    NonEmptyConcat(Split(a, '/'), Split(TrimEnd(b), '/'));
  }

  lemma PiecesOfSegment(s: string)
    requires IsCleanSegment(s)
    ensures Pieces(s) == [s]
  {
    SplitPrepend(s, "", '/');
    NonEmptyFixed([s]);
  }

  /** A clean segment at the end of a path is its last piece, whatever comes before the slash. */
  lemma PiecesEnd(front: string, last: string)
    requires IsCleanSegment(last)
    ensures Pieces(front + ['/'] + last) == NonEmpty(Split(front, '/')) + [last]
  {
    SplitConcat(front, last, '/');
    SplitPrepend(last, "", '/');
    NonEmptyAppend(Split(front, '/'), last);
  }

  /** A clean last segment ends the path and is its last piece, whatever comes before it. */
  lemma LastPiece(front: seq<string>, last: string)
    requires IsCleanSegment(last)
    ensures var path := PathOf(front + [last]);
            EndsClean(path) && Pieces(path) != [] && Pieces(path)[|Pieces(path)|-1] == last
  {
    NonEmptyAppend(front, last);
    var parts := NonEmpty(front);
    JoinAppend(parts, last, '/');
    JoinLast(parts + [last], '/');
    if parts == [] {
      PiecesOfSegment(last);
    } else {
      PiecesEnd(Join(parts, '/'), last);
    }
  }

  /** A key whose last segment is clean yields that segment to its own connector, whatever the segments before it are,
      and an error to any other. */
  lemma KeyExtracts(scheme: string, front: seq<string>, last: string, connector: string)
    requires IsScheme(scheme) && IsCleanSegment(last)
    ensures ExtractId(Build(scheme, front + [last]), connector) ==
            if SchemeForConnector(connector) == scheme then Id(last)
            else WrongScheme(scheme, SchemeForConnector(connector))
  {
    LastPiece(front, last);
    PathExtracts(scheme, PathOf(front + [last]), connector);
  }

  /** The id addressed by a key that ends in `tag/last`: the last piece of `last`, or the tag when it has none. */
  function Addressed(tag: string, last: string): string {
    var pieces := Pieces(last);
    if pieces == [] then tag else pieces[|pieces|-1]
  }

  /** `a/b`, or `a` when `b` is empty. */
  function Slashed(a: string, b: string): string {
    a + if b == "" then "" else ['/'] + b
  }

  /** One more segment at the end of a path. */
  lemma PathAppend(segments: seq<string>, last: string)
    requires NonEmpty(segments) != []
    ensures PathOf(segments + [last]) == Slashed(PathOf(segments), last)
  {
    NonEmptyAppend(segments, last);
    JoinAppend(NonEmpty(segments), last, '/');
  }

  /** Any id at all behind a tag. */
  lemma SlashedPieces(head: string, tag: string, last: string)
    requires EndsClean(head) && Pieces(head) != [] && Pieces(head)[|Pieces(head)|-1] == tag
    ensures var pieces := Pieces(Slashed(head, last)); pieces != [] && pieces[|pieces|-1] == Addressed(tag, last)
  {
    if last == "" {
      assert Slashed(head, last) == head && Pieces(last) == [];
    } else {
      assert Slashed(head, last) == head + ['/'] + last;
      PiecesCut(head, last);
    }
  }

  /** The last piece of a path that ends in a tag and any id at all. */
  lemma TaggedPieces(front: seq<string>, tag: string, last: string)
    requires IsCleanSegment(tag)
    ensures var pieces := Pieces(PathOf(front + [tag] + [last]));
            pieces != [] && pieces[|pieces|-1] == Addressed(tag, last)
  {
    LastPiece(front, tag);
    NonEmptyAppend(front, tag);
    PathAppend(front + [tag], last);
    SlashedPieces(PathOf(front + [tag]), tag, last);
  }

  /** A key that ends in a tag and any id at all. */
  lemma TaggedKeyExtracts(scheme: string, front: seq<string>, tag: string, last: string, connector: string)
    requires IsScheme(scheme) && IsCleanSegment(tag)
    ensures ExtractId(Build(scheme, front + [tag] + [last]), connector) ==
            if SchemeForConnector(connector) == scheme then Id(Addressed(tag, last))
            else WrongScheme(scheme, SchemeForConnector(connector))
  {
    var path := PathOf(front + [tag] + [last]);
    TaggedPieces(front, tag, last);
    PathExtracts(scheme, path, connector);
  }

  /** It addresses that id if and only if the id is a clean segment. */
  lemma AddressedIff(tag: string, last: string)
    requires IsCleanSegment(tag)
    ensures Addressed(tag, last) == last <==> IsCleanSegment(last)
  {
    if IsCleanSegment(last) {
      PiecesOfSegment(last);
    }
    if Addressed(tag, last) == last {
      AddressedIsClean(tag, last);
    }
  }

  /** Of an id with slashes, what follows the last one is addressed. */
  lemma AddressedAfterSlash(tag: string, front: string, rest: string)
    requires IsCleanSegment(rest)
    ensures Addressed(tag, front + ['/'] + rest) == rest
  {
    PiecesEnd(front, rest);
  }

  /** A text without slashes has one piece, unless trimming leaves nothing of it. */
  lemma PiecesOfSlashFree(s: string)
    requires '/' !in s
    ensures Pieces(s) == if TrimEnd(s) == "" then [] else [TrimEnd(s)]
  {
    TrimEndKeeps(s);
    SplitPrepend(TrimEnd(s), "", '/');
    assert Split(TrimEnd(s), '/') == [] + [TrimEnd(s)];
    NonEmptyAppend([], TrimEnd(s));
  }

  lemma AddressedIsClean(tag: string, last: string)
    requires IsCleanSegment(tag) && Addressed(tag, last) == last
    ensures IsCleanSegment(last)
  {
    NonEmptyKeeps(Split(TrimEnd(last), '/'));
    if Pieces(last) != [] {
      assert IsSegment(last);
      PiecesOfSlashFree(last);
      assert TrimEnd(last) == last;
    }
  }

  lemma {:induction false} TrimEndKeeps(s: string)
    requires '/' !in s
    ensures '/' !in TrimEnd(s)
  {
    if s != "" {
      TrimEndKeeps(s[..|s|-1]);
    }
  }

  /** A connector's scheme is its name without the `connector-` in front, and a name without that is its own scheme. */
  lemma SchemeOfConnector(name: string)
    ensures SchemeForConnector("connector-" + name) == name
    ensures !StartsWith(name, "connector-") ==> SchemeForConnector(name) == name
  {
  }

  /** Whitespace around the input never matters, and an input without `://` is a raw id. */
  lemma RawIdExtracts(input: string, connector: string)
    ensures ExtractId(Trim(input), connector) == ExtractId(input, connector)
    ensures DelimiterFree(Trim(input)) ==>
              ExtractId(input, connector) == if Trim(input) == "" then Empty else Id(Trim(input))
  {
    TrimFixed(input);
    TrimFixed(Trim(input));
    if DelimiterFree(Trim(input)) {
      assert FindDelimiter(Trim(input)) == |Trim(input)|;
    }
  }

  /** Keys are equal exactly when their schemes and their paths are. */
  lemma KeyEqualPaths(scheme1: string, segments1: seq<string>, scheme2: string, segments2: seq<string>)
    requires DelimiterFree(scheme1) && DelimiterFree(scheme2)
    ensures Build(scheme1, segments1) == Build(scheme2, segments2) <==>
            scheme1 == scheme2 && PathOf(segments1) == PathOf(segments2)
  {
    var path1, path2 := PathOf(segments1), PathOf(segments2);
    FindDelimiterAfter(scheme1, path1);
    FindDelimiterAfter(scheme2, path2);
    var key1, key2 := scheme1 + "://" + path1, scheme2 + "://" + path2;
    assert scheme1 == key1[..|scheme1|] && path1 == key1[|scheme1| + 3..];
    assert scheme2 == key2[..|scheme2|] && path2 == key2[|scheme2| + 3..];
  }

  /** The text before the first slash and the text after it are recoverable. */
  lemma SlashedInjective(a1: string, b1: string, a2: string, b2: string)
    requires '/' !in a1 && '/' !in a2 && Slashed(a1, b1) == Slashed(a2, b2)
    ensures a1 == a2 && b1 == b2
  {
    SlashedShorter(a1, b1, a2, b2);
    SlashedShorter(a2, b2, a1, b1);
    var s, n := Slashed(a1, b1), |a1|;
    assert a1 == s[..n] == a2;
    assert b1 != "" ==> b1 == s[n + 1..];
    assert b2 != "" ==> b2 == s[n + 1..];
  }

  lemma SlashedShorter(a1: string, b1: string, a2: string, b2: string)
    requires '/' !in a2 && Slashed(a1, b1) == Slashed(a2, b2)
    ensures |a1| >= |a2|
  {
    var s := Slashed(a1, b1);
    assert forall i | 0 <= i < |a2| :: s[i] == a2[i];
    assert b1 != "" ==> s[|a1|] == '/';
  }

  /** The path of a key, one segment at a time. */
  lemma PathCons(a: string, rest: seq<string>)
    ensures PathOf([a] + rest) == if a == "" then PathOf(rest) else Slashed(a, PathOf(rest))
  {
    assert ([a] + rest)[1..] == rest;
    var parts := NonEmpty(rest);
    if a == "" {
      assert NonEmpty([a] + rest) == parts;
    } else {
      assert NonEmpty([a] + rest) == [a] + parts;
      assert ([a] + parts)[1..] == parts;
      PathNonEmpty(rest);
    }
  }

  lemma {:induction false} PathNonEmpty(segments: seq<string>)
    ensures PathOf(segments) == "" <==> NonEmpty(segments) == []
  {
    if segments != [] && segments[0] == "" {
      assert NonEmpty(segments) == NonEmpty(segments[1..]);
      PathNonEmpty(segments[1..]);
    }
  }

  /** Keys of slash-free parts are equal exactly when the schemes and the non-empty parts are. */
  lemma KeyEqualIff(scheme1: string, segments1: seq<string>, scheme2: string, segments2: seq<string>)
    requires DelimiterFree(scheme1) && DelimiterFree(scheme2)
    requires forall i | 0 <= i < |segments1| :: '/' !in segments1[i]
    requires forall i | 0 <= i < |segments2| :: '/' !in segments2[i]
    requires NonEmpty(segments1) != [] && NonEmpty(segments2) != []
    ensures Build(scheme1, segments1) == Build(scheme2, segments2) <==>
            scheme1 == scheme2 && NonEmpty(segments1) == NonEmpty(segments2)
  {
    KeyEqualPaths(scheme1, segments1, scheme2, segments2);
    NonEmptyKeeps(segments1);
    NonEmptyKeeps(segments2);
    if PathOf(segments1) == PathOf(segments2) {
      JoinInjective(NonEmpty(segments1), NonEmpty(segments2), '/');
    }
  }

  /** Keys with well-formed parts are equal only if all their parts are. */
  lemma KeyInjective(scheme1: string, segments1: seq<string>, scheme2: string, segments2: seq<string>)
    requires DelimiterFree(scheme1) && DelimiterFree(scheme2)
    requires segments1 != [] && segments2 != []
    requires AreSegments(segments1) && AreSegments(segments2)
    requires Build(scheme1, segments1) == Build(scheme2, segments2)
    ensures scheme1 == scheme2 && segments1 == segments2
  {
    NonEmptyFixed(segments1);
    NonEmptyFixed(segments2);
    KeyEqualIff(scheme1, segments1, scheme2, segments2);
  }
}
