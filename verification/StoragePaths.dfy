/** `StoragePath`: paths below a repository root, parsed from text and printed again. */
module StoragePaths {
  import opened Basics

  datatype StoragePath = StoragePath(components: seq<string>, trailingSlash: Option<bool>)

  datatype InvalidStoragePath = InvalidPath

  // ---- Text ----

  /** `split("/")` */
  function Split(s: string): (parts: seq<string>)
    ensures |parts| > 0
  {
    if s == "" then [""]
    else
      var rest := Split(s[1..]);
      if s[0] == '/' then [""] + rest else [[s[0]] + rest[0]] + rest[1..]
  }

  /** `join("/")` */
  function Join(parts: seq<string>): string {
    if parts == [] then ""
    else if |parts| == 1 then parts[0]
    else parts[0] + "/" + Join(parts[1..])
  }

  function NonEmpty(parts: seq<string>): seq<string> {
    if parts == [] then []
    else if parts[0] == "" then NonEmpty(parts[1..])
    else [parts[0]] + NonEmpty(parts[1..])
  }

  predicate EndsWithSlash(s: string) {
    s != "" && s[|s| - 1] == '/'
  }

  predicate HasDoubleSlash(s: string) {
    exists i | 0 <= i < |s| - 1 :: s[i] == '/' && s[i + 1] == '/'
  }

  /** `StoragePathComponent::should_add_slash` */
  function ShouldAddSlash(s: string): Option<bool> {
    if EndsWithSlash(s) then Some(true) else if '.' in s then Some(false) else None
  }

  // ---- Paths ----

  /** `From<&str>` */
  function From(s: string): StoragePath {
    StoragePath(NonEmpty(Split(s)), ShouldAddSlash(s))
  }

  function Display(p: StoragePath): string {
    Join(p.components) + if p.trailingSlash == Some(true) then "/" else ""
  }

  predicate SafeComponent(c: string) {
    c != "." && c != ".." && '\\' !in c && '\0' !in c
  }

  function Validate(p: StoragePath): Result<(), InvalidStoragePath> {
    if forall c | c in p.components :: SafeComponent(c) then Ok(()) else Err(InvalidPath)
  }

  function FromUntrusted(s: string): Result<StoragePath, InvalidStoragePath> {
    if s == "" || s == "/" then Ok(From(s))
    else if s[0] == '/' || s[0] == '\\' || HasDoubleSlash(s) then Err(InvalidPath)
    else if Validate(From(s)).Err? then Err(InvalidPath)
    else Ok(From(s))
  }

  function Push(p: StoragePath, component: string): StoragePath {
    var q := From(component);
    StoragePath(p.components + q.components, q.trailingSlash)
  }

  function Parent(p: StoragePath): StoragePath {
    StoragePath(if p.components == [] then [] else p.components[..|p.components| - 1], Some(true))
  }

  predicate IsDirectory(p: StoragePath) {
    p.trailingSlash == Some(true)
  }

  /** What every way of making a path keeps: components are not empty, and hold no slash. */
  ghost predicate WellFormed(p: StoragePath) {
    forall c | c in p.components :: Plain(c)
  }

  predicate Plain(c: string) {
    c != "" && '/' !in c
  }

  // ---- Splitting and joining ----

  lemma {:induction false} JoinSplit(s: string)
    ensures Join(Split(s)) == s
  {
    if s != "" {
      var rest := Split(s[1..]);
      JoinSplit(s[1..]);
      assert s == [s[0]] + s[1..];
      if s[0] == '/' {
        assert Split(s)[1..] == rest;
      } else {
        assert Split(s)[1..] == rest[1..];
      }
    }
  }

  lemma {:induction false} PiecesAreSlashFree(s: string)
    ensures forall c | c in Split(s) :: '/' !in c
  {
    if s != "" {
      PiecesAreSlashFree(s[1..]);
    }
  }

  /** A slash-free piece, a slash, and more text: the piece comes first. */
  lemma {:induction false} SplitAfterPiece(c: string, rest: string)
    requires '/' !in c
    ensures Split(c) == [c]
    ensures Split(c + "/" + rest) == [c] + Split(rest)
  {
    if c == "" {
      assert c + "/" + rest == "/" + rest && ("/" + rest)[1..] == rest;
    } else {
      SplitAfterPiece(c[1..], rest);
      assert c == [c[0]] + c[1..];
      assert (c + "/" + rest)[1..] == c[1..] + "/" + rest;
    }
  }

  lemma {:induction false} SplitJoin(parts: seq<string>)
    requires parts != [] && forall c | c in parts :: '/' !in c
    ensures Split(Join(parts)) == parts
  {
    if |parts| == 1 {
      SplitAfterPiece(parts[0], "");
    } else {
      SplitJoin(parts[1..]);
      SplitAfterPiece(parts[0], Join(parts[1..]));
      assert parts == [parts[0]] + parts[1..];
    }
  }

  lemma {:induction false} SplitTrailing(s: string)
    ensures Split(s + "/") == Split(s) + [""]
  {
    if s == "" {
      assert s + "/" == "/" && "/"[1..] == "";
      assert Split("/") == [""] + Split("");
    } else {
      SplitTrailing(s[1..]);
      assert (s + "/")[1..] == s[1..] + "/" && s == [s[0]] + s[1..];
    }
  }

  lemma Associate(a: seq<string>, b: seq<string>, c: seq<string>)
    ensures (a + b) + c == a + (b + c)
  {
  }

  /** Of a first part. */
  function Kept(part: string): seq<string> {
    if part == "" then [] else [part]
  }

  lemma NonEmptyCons(parts: seq<string>)
    requires parts != []
    ensures NonEmpty(parts) == Kept(parts[0]) + NonEmpty(parts[1..])
  {
    assert [] + NonEmpty(parts[1..]) == NonEmpty(parts[1..]);
  }

  lemma {:induction false} NonEmptyConcat(a: seq<string>, b: seq<string>)
    ensures NonEmpty(a + b) == NonEmpty(a) + NonEmpty(b)
  {
    if a == [] {
      assert a + b == b;
      assert [] + NonEmpty(b) == NonEmpty(b);
    } else {
      NonEmptyConcat(a[1..], b);
      assert (a + b)[1..] == a[1..] + b && (a + b)[0] == a[0];
      NonEmptyCons(a);
      NonEmptyCons(a + b);
      hide NonEmpty;
      Associate(Kept(a[0]), NonEmpty(a[1..]), NonEmpty(b));
    }
  }

  lemma {:induction false} NonEmptyKeepsAll(parts: seq<string>)
    requires forall c | c in parts :: c != ""
    ensures NonEmpty(parts) == parts
  {
    if parts != [] {
      assert parts[0] in parts && parts == [parts[0]] + parts[1..];
      assert forall c | c in parts[1..] :: c in parts;
      NonEmptyKeepsAll(parts[1..]);
    }
  }

  lemma {:induction false} NonEmptyMembers(parts: seq<string>)
    ensures forall c :: c in NonEmpty(parts) <==> c in parts && c != ""
  {
    if parts != [] {
      NonEmptyMembers(parts[1..]);
      assert forall c :: c in parts <==> c == parts[0] || c in parts[1..];
    }
  }

  lemma FromIsWellFormed(s: string)
    ensures WellFormed(From(s))
  {
    PiecesAreSlashFree(s);
    NonEmptyMembers(Split(s));
  }

  // ---- Printing and parsing again ----

  lemma {:induction false} JoinEnd(parts: seq<string>)
    requires forall c | c in parts :: Plain(c)
    ensures !EndsWithSlash(Join(parts)) && (Join(parts) == "" <==> parts == [])
    ensures '.' in Join(parts) <==> exists c | c in parts :: '.' in c
  {
    assert forall c | c in parts :: !EndsWithSlash(c) by {
      assert forall c | c in parts :: Plain(c) && c[|c| - 1] in c;
    }
    assert parts != [] ==> parts[0] in parts && Plain(parts[0]);
    if |parts| > 1 {
      JoinEnd(parts[1..]);
      var c, rest := parts[0], Join(parts[1..]);
      assert (c + "/" + rest)[|c + "/" + rest| - 1] == rest[|rest| - 1];
      assert '.' in Join(parts) <==> '.' in c || '.' in Join(parts[1..]);
      assert forall d :: d in parts <==> d == c || d in parts[1..];
    }
  }

  /** The components of the text of a path are its components, whether or not a slash ends it. */
  lemma TextHasComponents(p: StoragePath)
    requires WellFormed(p)
    ensures NonEmpty(Split(Join(p.components))) == p.components
    ensures NonEmpty(Split(Join(p.components) + "/")) == p.components
  {
    var t := Join(p.components);
    SplitTrailing(t);
    NonEmptyConcat(Split(t), [""]);
    assert NonEmpty([""]) == [];
    if p.components != [] {
      SplitJoin(p.components);
      NonEmptyKeepsAll(p.components);
    }
  }

  /**
   Parsing a printed path again gives its components, its text and its kind, and gives the very same path exactly
   when its slash marker is the one its text calls for.
   */
  lemma ReparsingKeepsPath(p: StoragePath)
    requires WellFormed(p)
    ensures var q := From(Display(p));
      && q.components == p.components && Display(q) == Display(p) && IsDirectory(q) == IsDirectory(p)
      && (q == p <==> p.trailingSlash == ShouldAddSlash(Display(p)))
  {
    var t := Join(p.components);
    TextHasComponents(p);
    JoinEnd(p.components);
    assert t + "" == t;
    assert EndsWithSlash(t + "/");
  }

  /** A parsed path is a fixed point: printing and parsing it again changes nothing at all. */
  lemma ParsingIsStable(s: string)
    ensures From(Display(From(s))) == From(s)
  {
    var p := From(s);
    FromIsWellFormed(s);
    ReparsingKeepsPath(p);
    JoinEnd(p.components);
    NonEmptyMembers(Split(s));
    DotIsInAPiece(s);
    assert Join(p.components) + "" == Join(p.components);
  }

  lemma {:induction false} DotIsInAPiece(s: string)
    ensures '.' in s <==> exists c | c in Split(s) :: '.' in c
  {
    if s != "" {
      var rest := Split(s[1..]);
      DotIsInAPiece(s[1..]);
      assert '.' in s <==> s[0] == '.' || '.' in s[1..];
      assert forall c :: c in rest <==> c == rest[0] || c in rest[1..];
      if s[0] == '/' {
        assert forall c :: c in Split(s) <==> c == "" || c in rest;
      } else {
        assert forall c :: c in Split(s) <==> c == [s[0]] + rest[0] || c in rest[1..];
        assert '.' in [s[0]] + rest[0] <==> s[0] == '.' || '.' in rest[0];
      }
    }
  }

  // ---- Untrusted text ----

  /** A piece of the text between slashes, or between a slash and an end. */
  ghost predicate Delimited(s: string, i: int, j: int) {
    && 0 <= i <= j <= |s| && '/' !in s[i..j]
    && (i == 0 || s[i - 1] == '/') && (j == |s| || s[j] == '/')
  }

  ghost predicate HasSegment(s: string, c: string) {
    exists i, j :: Delimited(s, i, j) && s[i..j] == c
  }

  /** Splitting finds exactly the delimited pieces. */
  lemma {:induction false} SplitFindsSegments(s: string, c: string)
    ensures c in Split(s) <==> HasSegment(s, c)
  {
    var n := FirstSlash(s);
    if n == |s| {
      assert s[..n] == s;
      SplitAfterPiece(s, "");
      OnlySegment(s, c);
    } else {
      assert s == s[..n] + "/" + s[n + 1..];
      SplitAfterPiece(s[..n], s[n + 1..]);
      SplitFindsSegments(s[n + 1..], c);
      SegmentsAfterSlash(s, n, c);
      hide HasSegment;
    }
  }

  lemma OnlySegment(s: string, c: string)
    requires '/' !in s
    ensures HasSegment(s, c) <==> c == s
  {
    NoSlash(s);
    assert s[0..|s|] == s && Delimited(s, 0, |s|);
    assert forall i, j | Delimited(s, i, j) :: i == 0 && j == |s|;
  }

  lemma SegmentsAfterSlash(s: string, n: nat, c: string)
    requires n < |s| && s[n] == '/' && '/' !in s[..n]
    ensures HasSegment(s, c) <==> c == s[..n] || HasSegment(s[n + 1..], c)
  {
    var rest := s[n + 1..];
    if HasSegment(rest, c) {
      var i, j :| Delimited(rest, i, j) && rest[i..j] == c;
      assert s[n + 1 + i..n + 1 + j] == c;
      assert Delimited(s, n + 1 + i, n + 1 + j);
    }
    assert s[0..n] == s[..n] && Delimited(s, 0, n);
    if HasSegment(s, c) {
      var i, j :| Delimited(s, i, j) && s[i..j] == c;
      SegmentOf(s, n, i, j);
    }
  }

  lemma NoSlash(s: string)
    requires '/' !in s
    ensures forall k | 0 <= k < |s| :: s[k] != '/'
  {
  }

  /** A delimited piece is the first one, or lies after the first slash. */
  lemma SegmentOf(s: string, n: nat, i: int, j: int)
    requires n < |s| && s[n] == '/' && '/' !in s[..n] && Delimited(s, i, j)
    ensures s[i..j] == s[..n] || HasSegment(s[n + 1..], s[i..j])
  {
    var rest := s[n + 1..];
    NoSlash(s[..n]);
    NoSlash(s[i..j]);
    assert forall k | 0 <= k < n :: s[k] == s[..n][k];
    assert forall k | i <= k < j :: s[k] == s[i..j][k - i];
    if i == 0 {
      assert j == n;
    } else {
      assert i - 1 >= n;
      assert rest[i - n - 1..j - n - 1] == s[i..j];
      assert Delimited(rest, i - n - 1, j - n - 1);
    }
  }

  function FirstSlash(s: string): (n: nat)
    ensures n <= |s| && '/' !in s[..n] && (n < |s| ==> s[n] == '/')
  {
    if s == "" || s[0] == '/' then 0
    else
      var n := FirstSlash(s[1..]);
      assert s[..n + 1] == [s[0]] + s[1..][..n];
      n + 1
  }

  /** Without double slashes, only the first and the last piece can be empty, and only next to an outer slash. */
  lemma {:induction false} PiecesAreNonEmpty(s: string)
    requires !HasDoubleSlash(s) && s != "" && s[0] != '/' && !EndsWithSlash(s)
    ensures forall c | c in Split(s) :: c != ""
  {
    var n := FirstSlash(s);
    if n == |s| {
      assert s[..n] == s;
      SplitAfterPiece(s, "");
    } else {
      var rest := s[n + 1..];
      assert s == s[..n] + "/" + rest;
      SplitAfterPiece(s[..n], rest);
      assert rest != "" && s[n + 1] != '/';
      assert !HasDoubleSlash(rest) by {
        assert forall i | 0 <= i < |rest| :: rest[i] == s[n + 1 + i];
      }
      PiecesAreNonEmpty(rest);
    }
  }

  lemma RootParses()
    ensures From("").components == [] && From("/").components == []
  {
    SplitTrailing("");
    assert "" + "/" == "/" && Split("") == [""];
    NonEmptyConcat([""], [""]);
    assert NonEmpty([""]) == [];
  }

  lemma UntrustedPrintsAsGiven(s: string)
    requires FromUntrusted(s).Ok?
    ensures Display(FromUntrusted(s).value) == s
  {
    if s == "" || s == "/" {
      RootParses();
    } else if EndsWithSlash(s) {
      var t := s[..|s| - 1];
      assert s == t + "/" && t != "";
      assert !EndsWithSlash(t) && !HasDoubleSlash(t);
      PiecesAreNonEmpty(t);
      SplitTrailing(t);
      NonEmptyConcat(Split(t), [""]);
      NonEmptyKeepsAll(Split(t));
      assert NonEmpty([""]) == [] && Split(t) + [] == Split(t);
      JoinSplit(t);
    } else {
      PiecesAreNonEmpty(s);
      NonEmptyKeepsAll(Split(s));
      JoinSplit(s);
      assert s + "" == s;
    }
  }

  lemma {:induction false} CharsOfPieces(s: string, x: char)
    requires x != '/'
    ensures x in s <==> exists c | c in Split(s) :: x in c
  {
    if s != "" {
      var rest := Split(s[1..]);
      CharsOfPieces(s[1..], x);
      assert x in s <==> s[0] == x || x in s[1..];
      assert forall c :: c in rest <==> c == rest[0] || c in rest[1..];
      if s[0] == '/' {
        assert forall c :: c in Split(s) <==> c == "" || c in rest;
      } else {
        assert forall c :: c in Split(s) <==> c == [s[0]] + rest[0] || c in rest[1..];
        assert x in [s[0]] + rest[0] <==> s[0] == x || x in rest[0];
      }
    }
  }

  /** The marker of a parsed path: a directory by its last slash, else a file by a dot in any component, else undecided. */
  lemma MarkerMeans(s: string)
    ensures From(s).trailingSlash == Some(true) <==> s != "" && s[|s| - 1] == '/'
    ensures From(s).trailingSlash == Some(false) <==>
      !(s != "" && s[|s| - 1] == '/') && exists c | c in From(s).components :: '.' in c
  {
    CharsOfPieces(s, '.');
    NonEmptyMembers(Split(s));
    if c :| c in Split(s) && '.' in c {
      assert c in NonEmpty(Split(s));
    }
  }

  /** Exactly which texts are accepted, in terms of the text alone. */
  ghost predicate AcceptableText(s: string) {
    || s == "" || s == "/"
    || (s[0] != '/' && !HasDoubleSlash(s) && '\\' !in s && '\0' !in s && !HasSegment(s, ".") && !HasSegment(s, ".."))
  }

  /**
   The round trip of untrusted text: it is accepted exactly when it is acceptable, and then it prints exactly as it
   was given; so no two texts give the same path, and nothing was normalised away.
   */
  lemma UntrustedRoundTrip(s: string)
    ensures FromUntrusted(s).Ok? <==> AcceptableText(s)
    ensures FromUntrusted(s).Ok? ==> Display(FromUntrusted(s).value) == s && WellFormed(FromUntrusted(s).value)
    ensures FromUntrusted(s).Ok? ==> forall c | c in FromUntrusted(s).value.components :: SafeComponent(c)
    ensures forall t | FromUntrusted(s).Ok? && FromUntrusted(t).Ok? && FromUntrusted(s).value == FromUntrusted(t).value :: s == t
  {
    NonEmptyMembers(Split(s));
    SplitFindsSegments(s, ".");
    SplitFindsSegments(s, "..");
    CharsOfPieces(s, '\\');
    CharsOfPieces(s, '\0');
    FromIsWellFormed(s);
    if FromUntrusted(s).Ok? {
      UntrustedPrintsAsGiven(s);
    }
    forall t | FromUntrusted(s).Ok? && FromUntrusted(t).Ok? && FromUntrusted(s).value == FromUntrusted(t).value ensures s == t {
      UntrustedPrintsAsGiven(t);
    }
    RootParses();
  }

  // ---- Pushing and popping ----

  lemma {:induction false} JoinConcat(a: seq<string>, b: seq<string>)
    requires a != [] && b != []
    ensures Join(a + b) == Join(a) + "/" + Join(b)
  {
    assert (a + b)[1..] == a[1..] + b;
    if |a| == 1 {
      assert a[1..] + b == b;
    } else {
      JoinConcat(a[1..], b);
    }
  }

  lemma SplitOverSlash(a: string, b: string)
    ensures NonEmpty(Split(a + "/" + b)) == NonEmpty(Split(a)) + NonEmpty(Split(b))
  {
    SplitConcat(a, b);
    NonEmptyConcat(Split(a), Split(b));
  }

  lemma Reassociate(head: string, rest: string, b: string)
    ensures (head + "/" + rest) + "/" + b == head + "/" + (rest + "/" + b)
  {
  }

  lemma {:induction false} SplitConcat(a: string, b: string)
    ensures Split(a + "/" + b) == Split(a) + Split(b)
    decreases |a|
  {
    var n := FirstSlash(a);
    var head := a[..n];
    if n == |a| {
      assert head == a;
      SplitAfterPiece(a, b);
    } else {
      hide Split;
      var rest := a[n + 1..];
      assert a == head + "/" + rest;
      SplitConcat(rest, b);
      SplitAfterPiece(head, rest);
      SplitAfterPiece(head, rest + "/" + b);
      Reassociate(head, rest, b);
      Associate([head], Split(rest), Split(b));
    }
  }

  /** Pushing twice is pushing the joined text; pushing keeps paths well-formed, and the last push decides the marker. */
  lemma PushTwice(p: StoragePath, a: string, b: string)
    requires WellFormed(p)
    ensures WellFormed(Push(p, a))
    ensures Push(Push(p, a), b).components == Push(p, a + "/" + b).components
    ensures Push(Push(p, a), b).trailingSlash == ShouldAddSlash(b)
  {
    hide Split;
    hide NonEmpty;
    FromIsWellFormed(a);
    SplitOverSlash(a, b);
    var q := Push(p, a);
    assert forall c | c in q.components :: c in p.components || c in From(a).components;
    assert p.components + (From(a).components + From(b).components) == p.components + From(a).components + From(b).components;
  }

  /** Below a path that has components, pushed text prints behind a slash. */
  lemma PushPrints(p: StoragePath, c: string)
    requires p.components != [] && From(c).components != []
    ensures Display(Push(p, c)) == Join(p.components) + "/" + Display(From(c))
  {
    JoinConcat(p.components, From(c).components);
  }

  /** The parent of a pushed component is the directory it was pushed to. */
  lemma ParentOfPush(p: StoragePath, c: string)
    requires Plain(c)
    ensures Parent(Push(p, c)) == p.(trailingSlash := Some(true))
  {
    SplitAfterPiece(c, "");
    assert NonEmpty([c]) == [c];
    assert (p.components + [c])[..|p.components|] == p.components;
  }

  /** Lexical resolution of `.` and `..`, as a file system would do it. None means it left the root. */
  function Resolve(below: seq<string>, components: seq<string>): Option<seq<string>>
    decreases |components|
  {
    if components == [] then Some(below)
    else if components[0] == "." then Resolve(below, components[1..])
    else if components[0] == ".." then
      if below == [] then None else Resolve(below[..|below| - 1], components[1..])
    else Resolve(below + [components[0]], components[1..])
  }

  lemma {:induction false} SafeResolves(below: seq<string>, components: seq<string>)
    requires forall c | c in components :: SafeComponent(c)
    ensures Resolve(below, components) == Some(below + components)
    decreases |components|
  {
    if components == [] {
      assert below + [] == below;
    } else {
      assert components[0] in components && SafeComponent(components[0]);
      SafeResolves(below + [components[0]], components[1..]);
      assert below + components == below + [components[0]] + components[1..];
    }
  }

  /** An accepted path stays below any root it is joined to, in the place its components name. */
  lemma UntrustedStaysBelowRoot(s: string, root: seq<string>)
    requires FromUntrusted(s).Ok?
    ensures Resolve(root, FromUntrusted(s).value.components) == Some(root + FromUntrusted(s).value.components)
  {
    UntrustedRoundTrip(s);
    SafeResolves(root, FromUntrusted(s).value.components);
  }

  /** A path as a mutable value. */
  class PathBuilder {
    var components: seq<string>
    var trailingSlash: Option<bool>

    ghost function Value(): StoragePath
      reads this
    {
      StoragePath(components, trailingSlash)
    }

    constructor ()
      ensures Value() == StoragePath([], None)
    {
      components, trailingSlash := [], None;
    }

    method PushMut(component: string)
      modifies this
      ensures Value() == Push(old(Value()), component)
      ensures old(WellFormed(Value())) ==> WellFormed(Value())
    {
      var path := From(component);
      FromIsWellFormed(component);
      components := components + path.components;
      trailingSlash := path.trailingSlash;
    }
  }
}
