/**
 The file names of the S3 disk cache: how they are built, and the predicates by which start-up
 recovery tells its own files from a user's.
 */
module FileNames {
  import opened Basics

  type Key = string

  /**
   A file below the cache directory, by what it is for. The rest of the model uses these names;
   `Render` gives their spelling, and the lemmas below show what the spelling loses. `id` numbers the hexadecimal
   suffixes: a fresh UUID is one of them. `Foreign` is for every other name, recognised or not: see `Canonical`.
   */
  datatype FileName =
    | Content(key: Key, id: nat)
    | ContentTemp(key: Key, id: nat)
    | Metadata(key: Key)
    | MetadataTemp(key: Key, id: nat)
    | Legacy(key: Key)
    | Foreign(dir: string, name: string)

  /** SHA-256 in hexadecimal and the simple form of a UUID, as far as file names depend on them. */
  datatype Naming = Naming(hash: Key -> string, uuid: nat -> string)

  predicate IsHexDigit(c: char) {
    '0' <= c <= '9' || 'a' <= c <= 'f' || 'A' <= c <= 'F'
  }

  predicate IsHex(s: string) {
    forall i | 0 <= i < |s| :: IsHexDigit(s[i])
  }

  /** The form of the names. That hashes do not collide is not part of it: see `RenderCollidesIff`. */
  ghost predicate Faithful(n: Naming) {
    && (forall k :: |n.hash(k)| == 64 && IsHex(n.hash(k)))
    && (forall i: nat :: n.uuid(i) != "" && IsHex(n.uuid(i)))
    && (forall s {:trigger Numbered(n, s)} | s != "" && IsHex(s) :: Numbered(n, s))
  }

  ghost predicate Numbered(n: Naming, s: string) {
    exists i: nat :: n.uuid(i) == s
  }

  /** `str::split_once`: cut at the first occurrence of the pattern. */
  function SplitOnce(s: string, pattern: string): (r: Option<(string, string)>)
    requires pattern != ""
    ensures r.Some? ==> s == r.value.0 + pattern + r.value.1
  {
    if |s| < |pattern| then None
    else if s[..|pattern|] == pattern then Some(("", s[|pattern|..]))
    else
      match SplitOnce(s[1..], pattern)
      case None => None
      case Some((a, b)) => Some(([s[0]] + a, b))
  }

  /** `str::strip_suffix`. */
  function StripSuffix(s: string, suffix: string): (r: Option<string>)
    ensures r.Some? ==> s == r.value + suffix
  {
    if |s| >= |suffix| && s[|s| - |suffix|..] == suffix then Some(s[..|s| - |suffix|]) else None
  }

  function LastDot(name: string): (r: Option<nat>)
    ensures r.Some? ==> r.value < |name| && name[r.value] == '.'
    ensures r.Some? ==> forall i | r.value < i < |name| :: name[i] != '.'
    ensures r.None? ==> '.' !in name
  {
    if name == "" then None
    else if name[|name| - 1] == '.' then Some(|name| - 1)
    else LastDot(name[..|name| - 1])
  }

  /** `Path::with_extension` on a file name. */
  function WithExtension(name: string, extension: string): string {
    match LastDot(name)
    case Some(i) => (if i == 0 then name else name[..i]) + "." + extension
    case None => name + "." + extension
  }

  predicate IsOwnedLegacyContent(name: string) {
    |name| == 62 && IsHex(name)
  }

  predicate IsOwnedGeneration(name: string) {
    match SplitOnce(name, ".gen-")
    case None => false
    case Some((base, generation)) =>
      |base| == 62 && IsHex(base) && generation != "" && IsHex(generation)
  }

  predicate IsOwnedMetadata(name: string) {
    match StripSuffix(name, ".meta.json")
    case None => false
    case Some(base) => IsOwnedLegacyContent(base)
  }

  predicate IsOwnedTemp(name: string) {
    match SplitOnce(name, ".tmp-")
    case None => false
    case Some((base, suffix)) =>
      if suffix == "" || !IsHex(suffix) then false
      else if IsOwnedLegacyContent(base) then true
      else
        match StripSuffix(base, ".meta")
        case None => false
        case Some(inner) => IsOwnedLegacyContent(inner)
  }

  function HashedDir(n: Naming, key: Key): string
    requires |n.hash(key)| >= 2
  {
    n.hash(key)[..2]
  }

  function HashedName(n: Naming, key: Key): string
    requires |n.hash(key)| >= 2
  {
    n.hash(key)[2..]
  }

  function GeneratedName(n: Naming, key: Key, id: nat): string
    requires |n.hash(key)| >= 2
  {
    HashedName(n, key) + ".gen-" + n.uuid(id)
  }

  /** `metadata_filename`, within a directory. */
  function MetadataName(name: string): string {
    var base := match SplitOnce(name, ".gen-") case Some((b, _)) => b case None => name;
    base + ".meta.json"
  }

  /** The directory and the name under which a file is stored, built as `publish` builds them. */
  function Render(n: Naming, f: FileName): (string, string)
    requires f.Foreign? || |n.hash(f.key)| >= 2
  {
    match f
    case Content(k, id) => (HashedDir(n, k), GeneratedName(n, k, id))
    case ContentTemp(k, id) => (HashedDir(n, k), WithExtension(GeneratedName(n, k, id), "tmp-" + n.uuid(id)))
    case Metadata(k) => (HashedDir(n, k), MetadataName(HashedName(n, k)))
    case MetadataTemp(k, id) => (HashedDir(n, k), WithExtension(MetadataName(HashedName(n, k)), "tmp-" + n.uuid(id)))
    case Legacy(k) => (HashedDir(n, k), HashedName(n, k))
    case Foreign(d, x) => (d, x)
  }

  /** What recovery's second pass sees in a name: its own, of which kind, or not its own. */
  datatype Kind = AMetadata | AContent | ATemp | ALegacy | NotOwned

  /** A directory of the cache: two hexadecimal digits. */
  predicate IsPrefixDir(d: string) {
    |d| == 2 && IsHex(d)
  }

  /** The tests of recovery, in their order. */
  function SpelledKind(d: string, x: string): Kind {
    if !IsPrefixDir(d) then NotOwned
    else if IsOwnedMetadata(x) then AMetadata
    else if IsOwnedLegacyContent(x) then ALegacy
    else if IsOwnedGeneration(x) then AContent
    else if IsOwnedTemp(x) then ATemp
    else NotOwned
  }

  function KindOf(f: FileName): Kind {
    match f
    case Content(_, _) => AContent
    case ContentTemp(_, _) => ATemp
    case Metadata(_) => AMetadata
    case MetadataTemp(_, _) => ATemp
    case Legacy(_) => ALegacy
    case Foreign(d, x) => SpelledKind(d, x)
  }

  /** A name is given as `Foreign` only when no file of the cache is spelled that way. */
  ghost predicate Canonical(n: Naming, f: FileName)
    requires Faithful(n)
  {
    f.Foreign? ==> forall g: FileName | !g.Foreign? :: Render(n, g) != Render(n, f)
  }

  // ---- A naming ----

  function Digit(d: nat): (c: char)
    requires d < 22
    ensures IsHexDigit(c)
  {
    if d < 10 then '0' + d as char else if d < 16 then 'a' + (d - 10) as char else 'A' + (d - 16) as char
  }

  function ValueOf(c: char): (d: nat)
    requires IsHexDigit(c)
    ensures d < 22 && Digit(d) == c
  {
    if '0' <= c <= '9' then c as int - '0' as int
    else if 'a' <= c <= 'f' then c as int - 'a' as int + 10
    else c as int - 'A' as int + 16
  }

  /** The strings of hexadecimal digits in both cases, numbered by length and then in order. */
  function Digits(n: nat): (s: string)
    ensures IsHex(s) && (n > 0 ==> s != "")
  {
    if n == 0 then "" else Digits((n - 1) / 22) + [Digit((n - 1) % 22)]
  }

  function NumberOf(s: string): nat
    requires IsHex(s)
    decreases |s|
  {
    if s == "" then 0
    else
      assert forall i | 0 <= i < |s| - 1 :: s[..|s| - 1][i] == s[i];
      NumberOf(s[..|s| - 1]) * 22 + ValueOf(s[|s| - 1]) + 1
  }

  lemma {:induction false} DigitsOfNumber(s: string)
    requires IsHex(s)
    ensures Digits(NumberOf(s)) == s
    ensures s != "" ==> NumberOf(s) > 0
    decreases |s|
  {
    if s != "" {
      var t, d := s[..|s| - 1], ValueOf(s[|s| - 1]);
      assert IsHex(t) by {
        assert forall i | 0 <= i < |t| :: t[i] == s[i];
      }
      DigitsOfNumber(t);
      var m := NumberOf(s) - 1;
      assert m == NumberOf(t) * 22 + d && m / 22 == NumberOf(t) && m % 22 == d;
      assert s == t + [s[|s| - 1]];
    }
  }

  lemma {:induction false} DigitsInjective(m: nat, n: nat)
    requires Digits(m) == Digits(n)
    ensures m == n
  {
    if m > 0 && n > 0 {
      var a, b := Digits((m - 1) / 22), Digits((n - 1) / 22);
      assert Digits(m)[..|a|] == a && Digits(n)[..|b|] == b && |a| == |b|;
      assert Digits(m)[|a|] == Digit((m - 1) % 22) && Digits(n)[|b|] == Digit((n - 1) % 22);
      DigitsInjective((m - 1) / 22, (n - 1) / 22);
      DigitInjective((m - 1) % 22, (n - 1) % 22);
    }
  }

  lemma DigitInjective(d: nat, e: nat)
    requires d < 22 && e < 22 && Digit(d) == Digit(e)
    ensures d == e
  {
  }

  /** A hash that tells one key from the others. */
  function HashTelling(key: Key, k: Key): (h: string)
    ensures |h| == 64 && IsHex(h) && (h[0] == '0' <==> k == key)
  {
    seq(64, _ => if k == key then '0' else '1')
  }

  function SampleNaming(key: Key): Naming {
    Naming(k => HashTelling(key, k), (i: nat) => Digits(i + 1))
  }

  /** There are faithful namings: for any two keys one under which they do not collide, nor do any suffixes. */
  lemma NamingsExist(a: Key, b: Key)
    requires a != b
    ensures var n := SampleNaming(a);
      && Faithful(n) && n.hash(a) != n.hash(b)
      && (forall i: nat, j: nat :: n.uuid(i) == n.uuid(j) ==> i == j)
  {
    hide HashTelling;
    hide Digits;
    hide NumberOf;
    var n := SampleNaming(a);
    assert n.hash(a)[0] == '0' && n.hash(b)[0] != '0';
    forall s | s != "" && IsHex(s) ensures Numbered(n, s) {
      DigitsOfNumber(s);
      assert n.uuid(NumberOf(s) - 1) == s;
    }
    forall i: nat, j: nat | n.uuid(i) == n.uuid(j) ensures i == j {
      DigitsInjective(i + 1, j + 1);
    }
    hide IsHex;
  }

  // ---- Spellings ----

  lemma {:induction false} SplitAtFirst(a: string, pattern: string, b: string)
    requires pattern != ""
    requires forall i | 0 <= i < |a| :: a[i] != pattern[0]
    ensures SplitOnce(a + pattern + b, pattern) == Some((a, b))
  {
    var s := a + pattern + b;
    if a == "" {
      assert s[..|pattern|] == pattern && s[|pattern|..] == b;
    } else {
      assert s[0] == a[0] != pattern[0];
      assert s[..|pattern|][0] != pattern[0];
      assert s[1..] == a[1..] + pattern + b;
      SplitAtFirst(a[1..], pattern, b);
      assert [a[0]] + a[1..] == a;
    }
  }

  lemma ExtensionReplaced(base: string, old_: string, extension: string)
    requires base != "" && forall i | 0 <= i < |old_| :: old_[i] != '.'
    ensures WithExtension(base + "." + old_, extension) == base + "." + extension
  {
    var s := base + "." + old_;
    assert s[|base|] == '.';
    forall j | |base| < j < |s| ensures s[j] != '.' {
      assert s[j] == old_[j - |base| - 1];
    }
    assert LastDot(s) == Some(|base|) && s[..|base|] == base;
  }

  /** A name without a dot, or with one at its head alone, has no extension to replace. */
  lemma WithExtensionAdds(name: string, extension: string)
    requires '.' !in name || (name != "" && name[0] == '.' && '.' !in name[1..])
    ensures WithExtension(name, extension) == name + "." + extension
  {
    assert forall i | 0 < i < |name| :: name[i] == name[1..][i - 1];
  }

  lemma HexHasNoDot(s: string)
    requires IsHex(s)
    ensures forall i | 0 <= i < |s| :: s[i] != '.' && s[i] != '-' && s[i] != 'm' && s[i] != 't'
  {
    forall i | 0 <= i < |s| ensures s[i] != '.' && s[i] != '-' && s[i] != 'm' && s[i] != 't' {
      assert IsHexDigit(s[i]);
    }
  }

  lemma {:induction false} NoSplitWithoutDot(s: string)
    requires forall i | 0 <= i < |s| :: s[i] != '.'
    ensures SplitOnce(s, ".gen-").None?
  {
    if |s| >= 5 {
      assert s[..5][0] != '.';
      NoSplitWithoutDot(s[1..]);
    }
  }

  /** The four spellings a publication uses, in full. */
  lemma Spelling(n: Naming, key: Key, id: nat)
    requires Faithful(n)
    ensures |HashedName(n, key)| == 62 && IsHex(HashedName(n, key))
    ensures Render(n, Content(key, id)).1 == HashedName(n, key) + ".gen-" + n.uuid(id)
    ensures Render(n, ContentTemp(key, id)).1 == HashedName(n, key) + ".tmp-" + n.uuid(id)
    ensures Render(n, Metadata(key)).1 == HashedName(n, key) + ".meta.json"
    ensures Render(n, MetadataTemp(key, id)).1 == HashedName(n, key) + ".meta.tmp-" + n.uuid(id)
  {
    var h := HashedName(n, key);
    assert IsHex(h) by {
      assert IsHex(n.hash(key));
      forall i | 0 <= i < |h| ensures IsHexDigit(h[i]) {
        assert h[i] == n.hash(key)[i + 2];
      }
    }
    HexHasNoDot(h);
    var u := n.uuid(id);
    assert IsHex(u);
    HexHasNoDot(u);
    assert h + ".gen-" + u == h + "." + ("gen-" + u);
    ExtensionReplaced(h, "gen-" + u, "tmp-" + u);
    assert h + ".tmp-" + u == h + "." + ("tmp-" + u);
    NoSplitWithoutDot(h);
    assert h + ".meta.json" == h + ".meta" + "." + "json";
    ExtensionReplaced(h + ".meta", "json", "tmp-" + u);
    assert h + ".meta" + "." + ("tmp-" + u) == h + ".meta.tmp-" + u;
  }

  /** A generation file and the hashed name it derives from have one and the same metadata file. */
  lemma MetadataOfGeneration(n: Naming, key: Key, id: nat)
    requires Faithful(n)
    ensures MetadataName(Render(n, Content(key, id)).1) == Render(n, Metadata(key)).1
  {
    Spelling(n, key, id);
    HexHasNoDot(HashedName(n, key));
    SplitAtFirst(HashedName(n, key), ".gen-", n.uuid(id));
  }

  lemma GenerationShape(name: string)
    requires IsOwnedGeneration(name)
    ensures |name| > 67 && IsHex(name[..62]) && name[62..67] == ".gen-" && IsHex(name[67..])
  {
    var (b, g) := SplitOnce(name, ".gen-").value;
    assert name[..62] == b && name[62..67] == ".gen-" && name[67..] == g;
  }

  lemma MetadataShape(name: string)
    requires IsOwnedMetadata(name)
    ensures |name| == 72 && IsHex(name[..62]) && name[62..] == ".meta.json"
  {
    var b := StripSuffix(name, ".meta.json").value;
    assert name[..62] == b && name[62..] == ".meta.json";
  }

  lemma TempShape(name: string)
    requires IsOwnedTemp(name)
    ensures |name| > 67 && IsHex(name[..62])
    ensures name[62..67] == ".tmp-" || (|name| > 72 && name[62..72] == ".meta.tmp-")
  {
    var (b, g) := SplitOnce(name, ".tmp-").value;
    if IsOwnedLegacyContent(b) {
      assert name[..62] == b && name[62..67] == ".tmp-";
    } else {
      var inner := StripSuffix(b, ".meta").value;
      assert name == inner + ".meta" + ".tmp-" + g;
      assert name[..62] == inner && name[62..72] == ".meta.tmp-";
    }
  }

  /** No name whatever is of two kinds, so the order of recovery's tests does not matter. */
  lemma KindsAreDisjoint(name: string)
    ensures !(IsOwnedMetadata(name) && IsOwnedGeneration(name))
    ensures !(IsOwnedMetadata(name) && IsOwnedTemp(name))
    ensures !(IsOwnedGeneration(name) && IsOwnedTemp(name))
    ensures IsOwnedLegacyContent(name) ==> !IsOwnedMetadata(name) && !IsOwnedGeneration(name) && !IsOwnedTemp(name)
  {
    if IsOwnedMetadata(name) {
      MetadataShape(name);
      assert name[63] == 'm' && name[67] == '.';
    }
    if IsOwnedGeneration(name) {
      GenerationShape(name);
      assert name[62..67][1] == 'g';
      assert name[63] == 'g';
    }
    if IsOwnedTemp(name) {
      TempShape(name);
      if name[62..67] == ".tmp-" {
        assert name[62..67][1] == 't';
        assert name[63] == 't';
      } else {
        assert name[62..72][1] == 'm' && name[62..72][6] == 't';
        assert name[63] == 'm' && name[68] == 't';
        assert !IsOwnedMetadata(name) by {
          assert name[62..][6] != ".meta.json"[6];
        }
      }
    }
  }

  /** Recovery classifies every spelling a publication can produce as what it is. */
  lemma RecognisedForWhatItIs(n: Naming, f: FileName)
    requires Faithful(n) && !f.Foreign?
    ensures var name := Render(n, f).1;
      && (IsOwnedMetadata(name) <==> KindOf(f) == AMetadata)
      && (IsOwnedGeneration(name) <==> KindOf(f) == AContent)
      && (IsOwnedTemp(name) <==> KindOf(f) == ATemp)
      && (IsOwnedLegacyContent(name) <==> KindOf(f) == ALegacy)
  {
    var name := Render(n, f).1;
    var h := HashedName(n, f.key);
    KindsAreDisjoint(name);
    match f {
      case Content(k, id) =>
        Spelling(n, k, id);
        HexHasNoDot(h);
        SplitAtFirst(h, ".gen-", n.uuid(id));
      case ContentTemp(k, id) =>
        Spelling(n, k, id);
        HexHasNoDot(h);
        SplitAtFirst(h, ".tmp-", n.uuid(id));
      case Metadata(k) =>
        Spelling(n, k, 0);
        assert name[|name| - 10..] == ".meta.json" && name[..|name| - 10] == h;
      case MetadataTemp(k, id) =>
        Spelling(n, k, id);
        MetadataTempSplits(h, n.uuid(id));
      case Legacy(k) =>
        Spelling(n, k, 0);
    }
  }

  lemma MetadataTempSplits(h: string, u: string)
    requires |h| == 62 && IsHex(h) && u != "" && IsHex(u)
    ensures IsOwnedTemp(h + ".meta.tmp-" + u)
  {
    var name := h + ".meta.tmp-" + u;
    HexHasNoDot(h);
    // The first ".tmp-" is the one after ".meta": cut one character past the first dot.
    var tail := "meta" + ".tmp-" + u;
    SplitAtFirst("meta", ".tmp-", u);
    PrefixDot(h, tail);
    assert name == h + ("." + tail);
    assert (h + ".meta")[62..] == ".meta" && (h + ".meta")[..62] == h;
  }

  lemma SplitStep(c: char, s: string, pattern: string)
    requires |pattern| >= 2 && |s| + 1 >= |pattern| && (c != pattern[0] || s[0] != pattern[1])
    ensures SplitOnce([c] + s, pattern)
         == match SplitOnce(s, pattern) case None => None case Some((a, b)) => Some(([c] + a, b))
  {
    var t := [c] + s;
    assert t[1..] == s && t[0] == c && t[1] == s[0];
    assert t[..|pattern|][0] == c && t[..|pattern|][1] == s[0];
  }

  lemma {:induction false} PrefixDot(h: string, tail: string)
    requires forall i | 0 <= i < |h| :: h[i] != '.'
    requires |tail| > 4 && tail[0] == 'm'
    ensures SplitOnce(h + ("." + tail), ".tmp-")
         == match SplitOnce(tail, ".tmp-") case None => None case Some((a, b)) => Some((h + ("." + a), b))
  {
    if h == "" {
      SplitStep('.', tail, ".tmp-");
      assert h + ("." + tail) == ['.'] + tail;
      assert forall a: string :: h + ("." + a) == ['.'] + a;
    } else {
      PrefixDot(h[1..], tail);
      SplitStep(h[0], h[1..] + ("." + tail), ".tmp-");
      assert h + ("." + tail) == [h[0]] + (h[1..] + ("." + tail));
      assert forall a: string :: h + ("." + a) == [h[0]] + (h[1..] + ("." + a));
    }
  }

  /** The fresh name of a file, spelled out at the end of its rendering. */
  lemma Suffixes(n: Naming, f: FileName)
    requires Faithful(n) && !f.Foreign?
    ensures var name := Render(n, f).1;
      && |name| >= 62 && name[..62] == HashedName(n, f.key)
      && (f.Content? ==> name[62..] == ".gen-" + n.uuid(f.id))
      && (f.ContentTemp? ==> name[62..] == ".tmp-" + n.uuid(f.id))
      && (f.MetadataTemp? ==> name[62..] == ".meta.tmp-" + n.uuid(f.id))
  {
    Spelling(n, f.key, if f.Metadata? || f.Legacy? then 0 else f.id);
    var name := Render(n, f).1;
    var h := HashedName(n, f.key);
    match f
    case Content(_, i) => assert name == h + (".gen-" + n.uuid(i));
    case ContentTemp(_, i) => assert name == h + (".tmp-" + n.uuid(i));
    case Metadata(_) => assert name == h + ".meta.json";
    case MetadataTemp(_, i) => assert name == h + (".meta.tmp-" + n.uuid(i));
    case Legacy(_) =>
  }

  lemma SameTail(pattern: string, a: string, b: string)
    requires pattern + a == pattern + b
    ensures a == b
  {
    assert a == (pattern + a)[|pattern|..];
    assert b == (pattern + b)[|pattern|..];
  }

  lemma TailsDiffer(a: string, b: string)
    ensures ".tmp-" + a != ".meta.tmp-" + b
  {
    assert (".tmp-" + a)[1] == 't' && (".meta.tmp-" + b)[1] == 'm';
  }

  predicate SameForm(f: FileName, g: FileName) {
    || (f.Content? && g.Content?) || (f.ContentTemp? && g.ContentTemp?) || (f.Metadata? && g.Metadata?)
    || (f.MetadataTemp? && g.MetadataTemp?) || (f.Legacy? && g.Legacy?)
  }

  predicate SameSuffix(n: Naming, f: FileName, g: FileName) {
    && (f.Content? && g.Content? ==> n.uuid(f.id) == n.uuid(g.id))
    && (f.ContentTemp? && g.ContentTemp? ==> n.uuid(f.id) == n.uuid(g.id))
    && (f.MetadataTemp? && g.MetadataTemp? ==> n.uuid(f.id) == n.uuid(g.id))
  }

  lemma SameSpellingSameForm(n: Naming, f: FileName, g: FileName)
    requires Faithful(n) && !f.Foreign? && !g.Foreign? && Render(n, f) == Render(n, g)
    ensures SameForm(f, g) && n.hash(f.key) == n.hash(g.key) && SameSuffix(n, f, g)
  {
    assert KindOf(f) == KindOf(g) by {
      RecognisedForWhatItIs(n, f);
      RecognisedForWhatItIs(n, g);
    }
    Suffixes(n, f);
    Suffixes(n, g);
    assert n.hash(f.key) == HashedDir(n, f.key) + HashedName(n, f.key);
    assert n.hash(g.key) == HashedDir(n, g.key) + HashedName(n, g.key);
    if f.Content? {
      SameTail(".gen-", n.uuid(f.id), n.uuid(g.id));
    } else if f.ContentTemp? || f.MetadataTemp? {
      TailsDiffer(n.uuid(f.id), n.uuid(g.id));
      TailsDiffer(n.uuid(g.id), n.uuid(f.id));
      SameTail(if f.ContentTemp? then ".tmp-" else ".meta.tmp-", n.uuid(f.id), n.uuid(g.id));
    }
  }

  /** Two files of the cache share a path exactly when they are of one form, their keys' hashes collide and so do their suffixes. */
  lemma RenderCollidesIff(n: Naming, f: FileName, g: FileName)
    requires Faithful(n) && !f.Foreign? && !g.Foreign?
    ensures Render(n, f) == Render(n, g) <==> SameForm(f, g) && n.hash(f.key) == n.hash(g.key) && SameSuffix(n, f, g)
  {
    if Render(n, f) == Render(n, g) {
      SameSpellingSameForm(n, f, g);
    }
  }

  /** So different files never share a path as long as the hashes of their keys and their UUIDs do not collide. */
  lemma RenderIsInjective(n: Naming, f: FileName, g: FileName)
    requires Faithful(n) && !f.Foreign? && !g.Foreign?
    requires n.hash(f.key) == n.hash(g.key) ==> f.key == g.key
    requires forall i: nat, j: nat :: n.uuid(i) == n.uuid(j) ==> i == j
    requires Render(n, f) == Render(n, g)
    ensures f == g
  {
    RenderCollidesIff(n, f, g);
  }

  /** Recovery's tests, put to the spelling of any name in the directory, give its kind. */
  lemma KindIsSpelled(n: Naming, f: FileName)
    requires Faithful(n)
    ensures SpelledKind(Render(n, f).0, Render(n, f).1) == KindOf(f)
  {
    if !f.Foreign? {
      RecognisedForWhatItIs(n, f);
      var d := HashedDir(n, f.key);
      assert IsHex(d) by {
        assert IsHex(n.hash(f.key));
        assert forall i | 0 <= i < |d| :: d[i] == n.hash(f.key)[i];
      }
    }
  }

  /** Recovery's layout test on the content path a metadata record names. */
  predicate ValidLayout(n: Naming, key: Key, dir: string, name: string)
    requires |n.hash(key)| >= 2
  {
    dir == HashedDir(n, key) && HashedName(n, key) <= name && IsOwnedGeneration(name)
  }

  lemma LayoutIsGeneration(n: Naming, key: Key, dir: string, name: string)
    requires Faithful(n) && ValidLayout(n, key, dir, name)
    ensures exists i :: Render(n, Content(key, i)) == (dir, name)
  {
    hide SplitOnce;
    hide LastDot;
    GenerationShape(name);
    Spelling(n, key, 0);
    assert Numbered(n, name[67..]);
    var i :| n.uuid(i) == name[67..];
    assert name[..62] == HashedName(n, key);
    assert name == name[..62] + name[62..67] + name[67..];
    Spelling(n, key, i);
    assert Render(n, Content(key, i)).1 == name;
  }

  /** Of all names in the directory the layout test accepts the generations of that very key's hash, and nothing else. */
  lemma LayoutAcceptsOwnGenerations(n: Naming, key: Key, f: FileName)
    requires Faithful(n) && Canonical(n, f)
    ensures ValidLayout(n, key, Render(n, f).0, Render(n, f).1) <==> f.Content? && n.hash(f.key) == n.hash(key)
  {
    hide SplitOnce;
    hide LastDot;
    if f.Foreign? {
      if ValidLayout(n, key, f.dir, f.name) {
        LayoutIsGeneration(n, key, f.dir, f.name);
      }
    } else {
      assert IsOwnedGeneration(Render(n, f).1) <==> f.Content? by { RecognisedForWhatItIs(n, f); }
      if f.Content? {
        Spelling(n, f.key, f.id);
        Spelling(n, key, 0);
        PrefixOfSameLength(HashedName(n, key), HashedName(n, f.key), ".gen-" + n.uuid(f.id));
        assert HashedName(n, f.key) + ".gen-" + n.uuid(f.id) == HashedName(n, f.key) + (".gen-" + n.uuid(f.id));
        assert n.hash(f.key) == HashedDir(n, f.key) + HashedName(n, f.key);
        assert n.hash(key) == HashedDir(n, key) + HashedName(n, key);
      }
    }
  }

  /** A metadata file is the one expected for a key exactly when it is the file of that key's hash. */
  lemma ExpectedMetadata(n: Naming, key: Key, f: FileName)
    requires Faithful(n) && Canonical(n, f)
    ensures Render(n, f) == Render(n, Metadata(key)) <==> f.Metadata? && n.hash(f.key) == n.hash(key)
  {
    if !f.Foreign? {
      RenderCollidesIff(n, f, Metadata(key));
    }
  }

  lemma PrefixOfSameLength(a: string, b: string, tail: string)
    requires |a| == |b|
    ensures a <= b + tail <==> a == b
  {
    assert (b + tail)[..|b|] == b;
  }
}
