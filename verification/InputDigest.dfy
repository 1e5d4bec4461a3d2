/** internal/analysis/cache_entry.go and cache_files.go: the byte stream that is hashed to recognise unchanged inputs.
    Each relevant file and the configuration file contribute a key, a digest and two separators; the records are written
    in the order of their keys. The stream gives its records back whatever the configuration path is, because no file
    called `config` is relevant; the order in which the directory is walked leaves no trace in it; and remembering a
    digest is as good as computing it. The hash function itself is not looked into. */
module InputDigest {
  import opened Strings
  import opened Results
  import opened Seqs

  const NUL: char := '\0'

  const CONFIG: string := "config"

  /** One line of the stream: a file below the root, or the configuration file, which may be missing. */
  datatype Record = File(path: string, digest: string) | Config(path: string, found: Option<string>)

  predicate IsHex(s: string) {
    |s| == 64 && forall i :: 0 <= i < |s| ==> '0' <= s[i] <= '9' || 'a' <= s[i] <= 'f'
  }

  /** What the code writes: the files it hashes are never called `config`. */
  predicate IsRecord(r: Record) {
    NUL !in r.path &&
    match r
    case File(path, digest) => path != CONFIG && IsHex(digest)
    case Config(_, found) => found.Some? ==> IsHex(found.value)
  }

  function SortKey(r: Record): string {
    match r
    case File(path, _) => path
    case Config(path, _) => CONFIG + [NUL] + path
  }

  function DigestText(r: Record): string {
    match r
    case File(_, digest) => digest
    case Config(_, found) => if found.Some? then found.value else "missing"
  }

  /** `writeInputDigestRecord`. */
  function Encode(r: Record): string {
    SortKey(r) + [NUL] + DigestText(r) + "\n"
  }

  function Stream(records: seq<Record>): string {
    if records == [] then "" else Encode(records[0]) + Stream(records[1..])
  }

  // ----- the stream determines its records -----

  lemma SplitOnce(a: string, ra: string, b: string, rb: string, sep: char)
    requires sep !in a && sep !in b && a + [sep] + ra == b + [sep] + rb
    ensures a == b && ra == rb
  {
    var whole := a + [sep] + ra;
    assert whole[|a|] == sep && (b + [sep] + rb)[|b|] == sep;
    assert forall i :: 0 <= i < |a| ==> whole[i] == a[i] && a[i] in a;
    assert forall i :: 0 <= i < |b| ==> (b + [sep] + rb)[i] == b[i] && b[i] in b;
    assert whole[..|a|] == a && (b + [sep] + rb)[..|b|] == b;
    assert whole[|a| + 1..] == ra && (b + [sep] + rb)[|b| + 1..] == rb;
  }

  lemma HexPrefix(a: string, ra: string, b: string, rb: string)
    requires |a| == |b| && a + "\n" + ra == b + "\n" + rb
    ensures a == b && ra == rb
  {
    var whole := a + "\n" + ra;
    assert whole[..|a|] == a && (b + "\n" + rb)[..|b|] == b;
    assert whole[|a| + 1..] == ra && (b + "\n" + rb)[|b| + 1..] == rb;
  }

  /** What stands behind the first NUL. */
  function Behind(r: Record, rest: string): string {
    match r
    case File(_, digest) => digest + "\n" + rest
    case Config(path, _) => path + [NUL] + (DigestText(r) + "\n" + rest)
  }

  function Head(r: Record): string {
    if r.File? then r.path else CONFIG
  }

  lemma EncodeParts(r: Record, rest: string)
    ensures Encode(r) + rest == Head(r) + [NUL] + Behind(r, rest)
  {
    if r.Config? {
      assert Encode(r) + rest == CONFIG + [NUL] + (r.path + [NUL] + (DigestText(r) + "\n" + rest));
    } else {
      assert Encode(r) + rest == r.path + [NUL] + (r.digest + "\n" + rest);
    }
  }

  lemma FoundIsNotMissing(digest: string, restA: string, restB: string)
    requires IsHex(digest)
    ensures digest + "\n" + restA != "missing" + "\n" + restB
  {
    assert (digest + "\n" + restA)[0] == digest[0];
    assert ("missing" + "\n" + restB)[0] == 'm';
  }

  lemma HexLength(s: string)
    requires IsHex(s)
    ensures |s| == 64
  {
  }

  lemma SameConfig(a: Record, ra: string, b: Record, rb: string)
    requires IsRecord(a) && IsRecord(b) && a.Config? && b.Config? && Behind(a, ra) == Behind(b, rb)
    ensures a == b && ra == rb
  {
    hide IsHex;
    SplitOnce(a.path, DigestText(a) + "\n" + ra, b.path, DigestText(b) + "\n" + rb, NUL);
    var x, y := a.found, b.found;
    if x.Some? && y.Some? {
      HexLength(x.value);
      HexLength(y.value);
      HexPrefix(x.value, ra, y.value, rb);
    } else if x.Some? {
      FoundIsNotMissing(x.value, ra, rb);
    } else if y.Some? {
      FoundIsNotMissing(y.value, rb, ra);
    } else {
      HexPrefix("missing", ra, "missing", rb);
    }
  }

  /** A record can be read off the front of the stream. */
  lemma FirstRecord(a: Record, ra: string, b: Record, rb: string)
    requires IsRecord(a) && IsRecord(b) && Encode(a) + ra == Encode(b) + rb
    ensures a == b && ra == rb
  {
    hide IsHex, Encode;
    EncodeParts(a, ra);
    EncodeParts(b, rb);
    assert NUL !in CONFIG;
    SplitOnce(Head(a), Behind(a, ra), Head(b), Behind(b, rb), NUL);
    if a.Config? {
      SameConfig(a, ra, b, rb);
    } else {
      HexLength(a.digest);
      HexLength(b.digest);
      HexPrefix(a.digest, ra, b.digest, rb);
    }
  }

  lemma EncodeNotEmpty(r: Record)
    ensures Encode(r) != ""
  {
  }

  /** Equal streams come from equal records. */
  lemma {:induction false} StreamInjective(a: seq<Record>, b: seq<Record>)
    requires (forall r <- a :: IsRecord(r)) && (forall r <- b :: IsRecord(r))
    requires Stream(a) == Stream(b)
    ensures a == b
  {
    hide IsRecord, Encode;
    if a != [] && b != [] {
      FirstRecord(a[0], Stream(a[1..]), b[0], Stream(b[1..]));
      StreamInjective(a[1..], b[1..]);
      assert a == [a[0]] + a[1..] && b == [b[0]] + b[1..];
    } else {
      if a != [] { EncodeNotEmpty(a[0]); }
      if b != [] { EncodeNotEmpty(b[0]); }
    }
  }

  lemma StreamOne(r: Record)
    ensures Stream([r]) == Encode(r)
  {
    assert [r][1..] == [];
    assert Encode(r) + "" == Encode(r);
  }

  lemma StreamTwo(a: Record, b: Record)
    ensures Stream([a, b]) == Encode(a) + Encode(b)
  {
    hide Encode;
    assert [a, b][1..] == [b];
    StreamOne(b);
  }

  lemma Written(r: Record)
    ensures Encode(r) == (if r.File? then r.path else CONFIG + [NUL] + r.path) + [NUL] + DigestText(r) + "\n"
  {
  }

  lemma Regroup(a: string, b: string, c: string, d: string, e: string)
    ensures a + b + c + d + e == a + (b + c + d + e)
  {
  }

  /** Why `config` must not be the name of a hashed file: a configuration path could pass for it and another one. */
  lemma LineFeedCollides(x: string, y: string, name: string)
    requires IsHex(x) && IsHex(y) && NUL !in name
    ensures Stream([Config(x + "\n" + name, Some(y))]) == Stream([File(CONFIG, x), File(name, y)])
  {
    hide IsHex, Encode, Stream, SortKey;
    var config, first, second := Config(x + "\n" + name, Some(y)), File(CONFIG, x), File(name, y);
    var head := CONFIG + [NUL] + x + "\n";
    StreamOne(config);
    StreamTwo(first, second);
    assert Encode(first) == head && Encode(second) == name + [NUL] + y + "\n" by { Written(first); Written(second); }
    assert Encode(config) == CONFIG + [NUL] + (x + "\n" + name) + [NUL] + y + "\n" by { Written(config); }
    assert CONFIG + [NUL] + (x + "\n" + name) == head + name;
    Regroup(head, name, [NUL], y, "\n");
  }

  // ----- relevant files -----

  /** The last element of a clean path. */
  function Base(path: string): string {
    if path == "" || path[|path| - 1] == '/' then "" else Base(path[..|path| - 1]) + [path[|path| - 1]]
  }

  /** From the last dot on, if there is one. */
  function Extension(name: string): string {
    if name == "" then ""
    else
      var last := name[|name| - 1];
      if last == '.' then "."
      else
        var earlier := Extension(name[..|name| - 1]);
        if earlier == "" then "" else earlier + [last]
  }

  const LOCK_OR_CONFIG := [
    "package-lock.json", "yarn.lock", "pnpm-lock.yaml", "package.json", "tsconfig.json", "composer.lock",
    "composer.json", "cargo.lock", "cargo.toml", "go.mod", "go.sum", "requirements.txt", "requirements-dev.txt",
    "pipfile", "pipfile.lock", "poetry.lock", "pyproject.toml", "uv.lock", "pom.xml", "build.gradle",
    "build.gradle.kts", "gradle.lockfile", "settings.gradle", "settings.gradle.kts", "packages.lock.json",
    ".lopper.yml", ".lopper.yaml", "lopper.json"]

  const SOURCE_EXTENSIONS := [
    ".js", ".jsx", ".ts", ".tsx", ".mjs", ".cjs", ".py", ".go", ".rs", ".php", ".java", ".kt", ".kts", ".cs", ".fs",
    ".fsx", ".c", ".cc", ".cpp", ".cxx", ".h", ".hpp"]

  /** `IsGradleVersionCatalogFile`. */
  predicate IsVersionCatalog(name: string) {
    HasSuffix(Lower(TrimSpace(name)), ".versions.toml")
  }

  /** `isCacheRelevantFile`. */
  predicate IsRelevant(path: string) {
    var base := Lower(Base(path));
    IsVersionCatalog(base) || base in LOCK_OR_CONFIG || Lower(Extension(base)) in SOURCE_EXTENSIONS
  }

  lemma {:induction false} WithoutSlash(path: string)
    requires '/' !in path
    ensures Base(path) == path
  {
    if path != "" { WithoutSlash(path[..|path| - 1]); }
  }

  lemma {:induction false} WithoutDot(name: string)
    requires '.' !in name
    ensures Extension(name) == ""
  {
    if name != "" { WithoutDot(name[..|name| - 1]); }
  }

  lemma {:induction false} BaseBehind(dir: string, base: string)
    requires '/' !in base
    ensures Base(dir + ['/'] + base) == base
  {
    var path := dir + ['/'] + base;
    if base != "" {
      var n := |base| - 1;
      assert path[..|path| - 1] == dir + ['/'] + base[..n];
      BaseBehind(dir, base[..n]);
    }
  }

  lemma LongerExtension(before: string, extension: string, last: char, longer: string)
    requires last != '.' && longer == extension + [last]
    requires extension != "" && '.' !in extension[1..] && exists stem :: before == stem + extension
    ensures '.' !in longer[1..] && exists stem :: before + [last] == stem + longer
  {
    var stem :| before == stem + extension;
    assert before + [last] == stem + longer;
    assert longer[1..] == extension[1..] + [last];
  }

  lemma {:induction false} ExtensionCuts(name: string)
    ensures var extension := Extension(name);
      extension != "" ==>
        extension[0] == '.' && '.' !in extension[1..] && exists stem :: name == stem + extension
  {
    if name != "" {
      var n := |name| - 1;
      if name[n] == '.' {
        assert name == name[..n] + ".";
      } else {
        ExtensionCuts(name[..n]);
        assert name == name[..n] + [name[n]];
        if Extension(name[..n]) != "" { LongerExtension(name[..n], Extension(name[..n]), name[n], Extension(name)); }
      }
    }
  }

  lemma {:induction false} ExtensionBehind(stem: string, extension: string)
    requires extension != "" && extension[0] == '.' && '.' !in extension[1..]
    ensures Extension(stem + extension) == extension
  {
    var name, n := stem + extension, |extension| - 1;
    if n > 0 {
      assert name[..|name| - 1] == stem + extension[..n];
      assert extension[..n][1..] == extension[1..][..n - 1];
      assert extension[n] == extension[1..][n - 1];
      ExtensionBehind(stem, extension[..n]);
    }
  }

  lemma NoSourceExtension()
    ensures "" !in SOURCE_EXTENSIONS
  {
    assert forall extension <- SOURCE_EXTENSIONS :: |extension| > 0;
  }

  lemma LowStaysLow(name: string)
    ensures Lower(Lower(name)) == Lower(name)
  {
  }

  lemma LowPart(base: string, stem: string, part: string)
    requires Lower(base) == base && base == stem + part
    ensures Lower(part) == part
  {
    forall i | 0 <= i < |part| ensures LowerChar(part[i]) == part[i] { assert base[|stem| + i] == part[i]; }
  }

  lemma ListedExtension(extension: string)
    requires extension in SOURCE_EXTENSIONS
    ensures extension != "" && extension[0] == '.' && '.' !in extension[1..]
  {
  }

  lemma SuffixCuts(s: string, suffix: string)
    ensures HasSuffix(s, suffix) <==> exists stem :: s == stem + suffix
  {
    if HasSuffix(s, suffix) { assert s == s[..|s| - |suffix|] + suffix; }
    if stem :| s == stem + suffix { assert s[|s| - |suffix|..] == suffix; }
  }

  lemma TrimStaysLow(name: string)
    requires Lower(name) == name
    ensures Lower(TrimSpace(name)) == TrimSpace(name)
  {
    hide TrimSpace, LowerChar;
    Trimmed(name);
    var trimmed := TrimSpace(name);
    var from, to :| 0 <= from <= to <= |name| && trimmed == name[from..to];
    forall i | 0 <= i < |trimmed| ensures LowerChar(trimmed[i]) == trimmed[i] {
      assert name[from + i] == Lower(name)[from + i];
    }
    assert Lower(trimmed) == trimmed;
  }

  lemma CatalogName(name: string)
    requires Lower(name) == name
    ensures IsVersionCatalog(name) <==> exists stem :: TrimSpace(name) == stem + ".versions.toml"
  {
    hide Lower, TrimSpace, HasSuffix;
    TrimStaysLow(name);
    SuffixCuts(TrimSpace(name), ".versions.toml");
  }

  /** A file is relevant by its lower-case name alone: it ends like a version catalog, is a listed name, or ends in a
      listed extension. */
  lemma RelevantExactlyWhen(dir: string, name: string)
    requires '/' !in name
    ensures IsRelevant(dir + ['/'] + name) <==> IsRelevant(name)
    ensures IsRelevant(name) <==>
      (exists stem :: TrimSpace(Lower(name)) == stem + ".versions.toml") || Lower(name) in LOCK_OR_CONFIG ||
      exists stem, extension :: extension in SOURCE_EXTENSIONS && Lower(name) == stem + extension
  {
    hide IsVersionCatalog;
    CatalogName(Lower(name));
    BaseBehind(dir, name);
    WithoutSlash(name);
    var base := Lower(name);
    var extension := Extension(base);
    NoSourceExtension();
    LowStaysLow(name);
    ExtensionCuts(base);
    if Lower(extension) in SOURCE_EXTENSIONS {
      var stem :| base == stem + extension;
      LowPart(base, stem, extension);
    }
    if stem, x :| x in SOURCE_EXTENSIONS && base == stem + x {
      ListedExtension(x);
      ExtensionBehind(stem, x);
      LowPart(base, stem, x);
    }
  }

  lemma NoLockOrConfig()
    ensures CONFIG !in LOCK_OR_CONFIG
  {
    assert forall name <- LOCK_OR_CONFIG :: |name| != 6 || name[2] == '.';
  }

  lemma NoVersionCatalog()
    ensures !IsVersionCatalog(CONFIG)
  {
    Trimmed(CONFIG);
  }

  /** A file called `config` right below the root is not relevant. */
  lemma ConfigIsNotRelevant()
    ensures !IsRelevant(CONFIG)
  {
    hide Base, Extension, IsVersionCatalog;
    WithoutSlash(CONFIG);
    WithoutDot(CONFIG);
    NoLockOrConfig();
    NoSourceExtension();
    NoVersionCatalog();
    assert Lower(CONFIG) == CONFIG && Lower("") == "";
  }

  /** What the walk below the root comes to, outside of the directories it skips. */
  datatype Entry = Entry(relative: string, absolute: string, regular: bool) | Unwalkable

  /** A relevant file: its path below the root, and where it lies. */
  datatype Found = Found(relative: string, absolute: string)

  function Collected(entries: seq<Entry>): Option<seq<Found>> {
    if entries == [] then Some([])
    else
      match (Collected(entries[..|entries| - 1]), entries[|entries| - 1])
      case (Some(files), Entry(relative, absolute, regular)) =>
        Some(files + if regular && IsRelevant(relative) then [Found(relative, absolute)] else [])
      case _ => None
  }

  lemma {:induction false} CollectionFails(entries: seq<Entry>, i: nat)
    requires i <= |entries| && Collected(entries[..i]).None?
    ensures Collected(entries).None?
    decreases |entries|
  {
    TakeAll(entries);
    if i < |entries| {
      TakeOfTake(entries, |entries| - 1, i);
      CollectionFails(entries[..|entries| - 1], i);
    }
  }

  /** `collectRelevantFiles`. */
  method CollectRelevantFiles(entries: seq<Entry>) returns (files: Option<seq<Found>>)
    ensures files == Collected(entries)
  {
    hide IsRelevant;
    var found: seq<Found> := [];
    for i := 0 to |entries|
      invariant Collected(entries[..i]) == Some(found)
    {
      TakeLast(entries, i);
      match entries[i] {
        case Unwalkable =>
          CollectionFails(entries, i + 1);
          return None;
        case Entry(relative, absolute, regular) =>
          assert found + [] == found;
          if regular && IsRelevant(relative) { found := found + [Found(relative, absolute)]; }
      }
    }
    TakeAll(entries);
    files := Some(found);
  }

  // ----- inputs in walk order -----

  datatype Input = Input(sortKey: string, path: string, allowMissing: bool)

  predicate ByKey(s: seq<Input>) {
    forall i, j :: 0 <= i < j < |s| ==> AtMost(s[i].sortKey, s[j].sortKey)
  }

  predicate DistinctKeys(s: seq<Input>) {
    forall i, j :: 0 <= i < j < |s| ==> s[i].sortKey != s[j].sortKey
  }

  lemma HeadStays(x: Input, s: seq<Input>, t: seq<Input>)
    requires ByKey(s) && s != [] && Less(s[0].sortKey, x.sortKey) && ByKey(t)
    requires forall y :: y in t <==> y == x || y in s[1..]
    requires DistinctKeys(s[1..]) && (forall y <- s[1..] :: y.sortKey != x.sortKey) ==> DistinctKeys(t)
    ensures ByKey([s[0]] + t)
    ensures DistinctKeys(s) && (forall y <- s :: y.sortKey != x.sortKey) ==> DistinctKeys([s[0]] + t)
  {
    hide Less;
    LessIrreflexive(x.sortKey);
    forall k | 0 <= k < |t| ensures AtMost(s[0].sortKey, t[k].sortKey) {
      assert t[k] in t;
    }
    if DistinctKeys(s) && (forall y <- s :: y.sortKey != x.sortKey) {
      assert forall k :: 0 <= k < |s[1..]| ==> s[1..][k] in s;
      forall k | 0 <= k < |t| ensures t[k].sortKey != s[0].sortKey {
        assert t[k] in t;
      }
    }
  }

  lemma FirstInput(x: Input, s: seq<Input>)
    requires ByKey(s) && s != [] && !Less(s[0].sortKey, x.sortKey)
    ensures ByKey([x] + s)
  {
    LessTotal(x.sortKey, s[0].sortKey);
    forall k | 0 <= k < |s| ensures AtMost(x.sortKey, s[k].sortKey) {
      if x.sortKey != s[0].sortKey && s[k].sortKey != s[0].sortKey {
        LessTransitive(x.sortKey, s[0].sortKey, s[k].sortKey);
      }
    }
  }

  function InsertInput(x: Input, s: seq<Input>): (r: seq<Input>)
    requires ByKey(s)
    ensures ByKey(r) && forall y :: y in r <==> y == x || y in s
    ensures |r| == |s| + 1
    ensures DistinctKeys(s) && (forall y <- s :: y.sortKey != x.sortKey) ==> DistinctKeys(r)
  {
    if s == [] then [x]
    else
      assert s == [s[0]] + s[1..];
      if Less(s[0].sortKey, x.sortKey) then
        var t := InsertInput(x, s[1..]);
        HeadStays(x, s, t);
        [s[0]] + t
      else
        FirstInput(x, s);
        [x] + s
  }

  /** `sort.Slice` by key. */
  function SortInputs(s: seq<Input>): (r: seq<Input>)
    ensures ByKey(r) && |r| == |s| && forall y :: y in r <==> y in s
    ensures DistinctKeys(s) ==> DistinctKeys(r)
  {
    if s == [] then []
    else
      assert s == [s[0]] + s[1..];
      assert forall k :: 0 <= k < |s[1..]| ==> s[1..][k] == s[k + 1];
      InsertInput(s[0], SortInputs(s[1..]))
  }

  function Keys(s: seq<Input>): (r: seq<string>)
    ensures |r| == |s| && forall i :: 0 <= i < |s| ==> r[i] == s[i].sortKey
  {
    seq(|s|, i requires 0 <= i < |s| => s[i].sortKey)
  }

  /** Two key-sorted lists with distinct keys and the same members are one list. */
  lemma SortedIsUnique(a: seq<Input>, b: seq<Input>)
    requires ByKey(a) && DistinctKeys(a) && ByKey(b) && DistinctKeys(b)
    requires forall x :: x in a <==> x in b
    ensures a == b
  {
    var ka, kb := Keys(a), Keys(b);
    forall k ensures k in ka <==> k in kb {
      if k in ka {
        var i :| 0 <= i < |a| && a[i].sortKey == k;
        assert a[i] in b;
        var j :| 0 <= j < |b| && b[j] == a[i];
        assert kb[j] == k;
      }
      if k in kb {
        var i :| 0 <= i < |b| && b[i].sortKey == k;
        assert b[i] in a;
        var j :| 0 <= j < |a| && a[j] == b[i];
        assert ka[j] == k;
      }
    }
    AscendingIsUnique(ka, kb);
    forall i | 0 <= i < |a| ensures a[i] == b[i] {
      assert a[i] in b;
      var j :| 0 <= j < |b| && b[j] == a[i];
      assert ka[i] == kb[i] == a[i].sortKey;
      assert i == j;
    }
  }

  // ----- the digest -----

  /** What hashing a file yields. */
  datatype Content = Hashed(digest: string) | Absent | Broken

  type Reader = string -> Content

  function FileInputs(files: seq<Found>): (r: seq<Input>)
    ensures |r| == |files|
    ensures forall i :: 0 <= i < |files| ==> r[i] == Input(files[i].relative, files[i].absolute, false)
  {
    seq(|files|, i requires 0 <= i < |files| => Input(files[i].relative, files[i].absolute, false))
  }

  function Inputs(files: seq<Found>, config: string): seq<Input> {
    FileInputs(files) + if config == "" then [] else [Input(CONFIG + [NUL] + config, config, true)]
  }

  function RecordOf(input: Input, read: Reader): Option<Record> {
    match read(input.path)
    case Hashed(digest) =>
      Some(if input.allowMissing then Config(input.path, Some(digest)) else File(input.sortKey, digest))
    case Absent => if input.allowMissing then Some(Config(input.path, None)) else None
    case Broken => None
  }

  function Records(inputs: seq<Input>, read: Reader): Option<seq<Record>> {
    if inputs == [] then Some([])
    else
      match (Records(inputs[..|inputs| - 1], read), RecordOf(inputs[|inputs| - 1], read))
      case (Some(rest), Some(record)) => Some(rest + [record])
      case _ => None
  }

  lemma {:induction false} StreamSnoc(records: seq<Record>, r: Record)
    ensures Stream(records + [r]) == Stream(records) + Encode(r)
  {
    hide Encode;
    if records == [] {
      assert [] + [r] == [r];
      StreamOne(r);
    } else {
      assert (records + [r])[1..] == records[1..] + [r];
      StreamSnoc(records[1..], r);
    }
  }

  lemma {:induction false} RecordsFail(inputs: seq<Input>, i: nat, read: Reader)
    requires i <= |inputs| && Records(inputs[..i], read).None?
    ensures Records(inputs, read).None?
    decreases |inputs|
  {
    TakeAll(inputs);
    if i < |inputs| {
      TakeOfTake(inputs, |inputs| - 1, i);
      RecordsFail(inputs[..|inputs| - 1], i, read);
    }
  }

  method AppendRecord(stream: string, input: Input, read: Reader) returns (r: Option<string>)
    requires input.allowMissing ==> input.sortKey == CONFIG + [NUL] + input.path
    ensures r == match RecordOf(input, read) case Some(record) => Some(stream + Encode(record)) case None => None
  {
    var text: string;
    match read(input.path) {
      case Hashed(digest) => text := digest;
      case Absent =>
        if !input.allowMissing { return None; }
        text := "missing";
      case Broken => return None;
    }
    var written := stream + input.sortKey;
    written := written + [NUL];
    written := written + text;
    written := written + "\n";
    assert written == stream + (input.sortKey + [NUL] + text + "\n");
    r := Some(written);
  }

  /** The records of a tree: its relevant files and the configuration, in the order of their keys. */
  function TreeRecords(entries: seq<Entry>, config: string, read: Reader): Option<seq<Record>> {
    match Collected(entries)
    case Some(files) => Records(SortInputs(Inputs(files, config)), read)
    case None => None
  }

  function StreamText(records: Option<seq<Record>>): Option<string> {
    if records.Some? then Some(Stream(records.value)) else None
  }

  function StreamOf(entries: seq<Entry>, config: string, read: Reader): Option<string> {
    StreamText(TreeRecords(entries, config, read))
  }

  method WriteInputs(files: seq<Found>, config: string, read: Reader) returns (stream: Option<string>)
    ensures stream == StreamText(Records(SortInputs(Inputs(files, config)), read))
  {
    hide RecordOf, Encode, AtMost, SortInputs;
    var inputs: seq<Input> := [];
    for i := 0 to |files|
      invariant inputs == FileInputs(files)[..i]
    {
      inputs := inputs + [Input(files[i].relative, files[i].absolute, false)];
    }
    TakeAll(FileInputs(files));
    if config != "" { inputs := inputs + [Input(CONFIG + [NUL] + config, config, true)]; }
    assert inputs == Inputs(files, config);
    var sorted := SortInputs(inputs);
    var written := "";
    ghost var records: seq<Record> := [];
    for i := 0 to |sorted|
      invariant Records(sorted[..i], read) == Some(records) && written == Stream(records)
    {
      TakeLast(sorted, i);
      assert sorted[i] in inputs;
      var next := AppendRecord(written, sorted[i], read);
      if next.None? {
        RecordsFail(sorted, i + 1, read);
        return None;
      }
      ghost var record := RecordOf(sorted[i], read).value;
      StreamSnoc(records, record);
      records := records + [record];
      written := next.value;
    }
    TakeAll(sorted);
    stream := Some(written);
  }

  /** `computeInputDigest` up to the final hash. */
  method InputStream(entries: seq<Entry>, config: string, read: Reader) returns (stream: Option<string>)
    ensures stream == StreamOf(entries, config, read)
  {
    hide Records, Stream, SortInputs, Inputs;
    var files := CollectRelevantFiles(entries);
    if files.None? { return None; }
    stream := WriteInputs(files.value, config, read);
  }

  /** A walk comes to each path once, and no name of a file holds a NUL. */
  predicate Proper(entries: seq<Entry>) {
    (forall e <- entries :: e.Entry? ==> NUL !in e.relative) &&
    forall i, j :: 0 <= i < j < |entries| && entries[i].Entry? && entries[j].Entry? ==>
      entries[i].relative != entries[j].relative
  }

  /** Digests are written in hexadecimal, and the operating system refuses a path with a NUL. */
  ghost predicate Hashes(read: Reader) {
    forall path :: (read(path).Hashed? ==> IsHex(read(path).digest)) && (NUL in path ==> read(path).Broken?)
  }

  /** What the walk of a proper tree collects. */
  predicate Relevant(files: seq<Found>) {
    (forall f <- files :: NUL !in f.relative && IsRelevant(f.relative)) &&
    forall i, j :: 0 <= i < j < |files| ==> files[i].relative != files[j].relative
  }

  lemma {:induction false} CollectedMembers(entries: seq<Entry>)
    ensures Collected(entries).None? <==> Unwalkable in entries
    ensures Collected(entries).Some? ==> forall f :: f in Collected(entries).value <==>
      Entry(f.relative, f.absolute, true) in entries && IsRelevant(f.relative)
  {
    hide IsRelevant;
    if entries != [] {
      var n := |entries| - 1;
      CollectedMembers(entries[..n]);
      assert entries == entries[..n] + [entries[n]];
    }
  }

  lemma {:induction false} CollectedIsRelevant(entries: seq<Entry>)
    requires Proper(entries) && Collected(entries).Some?
    ensures Relevant(Collected(entries).value)
  {
    hide IsRelevant;
    if entries != [] {
      var n := |entries| - 1;
      CollectedIsRelevant(entries[..n]);
      CollectedMembers(entries[..n]);
      var earlier, last := Collected(entries[..n]).value, entries[n];
      assert last in entries;
      forall f | f in earlier ensures f.relative != last.relative {
        var i :| 0 <= i < n && entries[i] == Entry(f.relative, f.absolute, true);
      }
    }
  }

  lemma RelevantKeys(files: seq<Found>, config: string)
    requires Relevant(files)
    ensures DistinctKeys(Inputs(files, config))
  {
    hide IsRelevant;
    var inputs := Inputs(files, config);
    assert (CONFIG + [NUL] + config)[6] == NUL;
    assert forall i :: 0 <= i < |files| ==> NUL !in inputs[i].sortKey by {
      assert forall i :: 0 <= i < |files| ==> files[i] in files;
    }
  }

  lemma InputMembers(files: seq<Found>, config: string, input: Input)
    ensures input in Inputs(files, config) <==>
      (!input.allowMissing && Found(input.sortKey, input.path) in files) ||
      (config != "" && input == Input(CONFIG + [NUL] + config, config, true))
  {
    if !input.allowMissing && Found(input.sortKey, input.path) in files {
      var i :| 0 <= i < |files| && files[i] == Found(input.sortKey, input.path);
      assert FileInputs(files)[i] == input;
    }
  }

  lemma SameInputs(a: seq<Found>, b: seq<Found>, config: string)
    requires Relevant(a) && Relevant(b) && forall f :: f in a <==> f in b
    ensures SortInputs(Inputs(a, config)) == SortInputs(Inputs(b, config))
  {
    hide SortInputs, Relevant;
    var x, y := Inputs(a, config), Inputs(b, config);
    RelevantKeys(a, config);
    RelevantKeys(b, config);
    forall input ensures input in x <==> input in y {
      InputMembers(a, config, input);
      InputMembers(b, config, input);
    }
    SortedIsUnique(SortInputs(x), SortInputs(y));
  }

  /** The order in which the walk comes to the files does not matter. */
  lemma WalkOrderDoesNotMatter(a: seq<Entry>, b: seq<Entry>, config: string, read: Reader)
    requires Proper(a) && Proper(b) && forall e :: e in a <==> e in b
    ensures StreamOf(a, config, read) == StreamOf(b, config, read)
  {
    hide Records, Stream, SortInputs, Proper, Inputs, IsRelevant, Relevant, Collected;
    CollectedMembers(a);
    CollectedMembers(b);
    if Collected(a).Some? {
      CollectedIsRelevant(a);
      CollectedIsRelevant(b);
      SameInputs(Collected(a).value, Collected(b).value, config);
    }
  }

  lemma RecordIsProper(input: Input, files: seq<Found>, config: string, read: Reader)
    requires Relevant(files) && Hashes(read) && input in Inputs(files, config) && RecordOf(input, read).Some?
    ensures IsRecord(RecordOf(input, read).value)
  {
    hide IsHex, Inputs, IsRelevant;
    InputMembers(files, config, input);
    ConfigIsNotRelevant();
  }

  lemma {:induction false} RecordsAreProper(inputs: seq<Input>, files: seq<Found>, config: string, read: Reader)
    requires Relevant(files) && Hashes(read) && Records(inputs, read).Some?
    requires forall x <- inputs :: x in Inputs(files, config)
    ensures forall r <- Records(inputs, read).value :: IsRecord(r)
  {
    hide Relevant, Hashes, Inputs, RecordOf, IsRecord;
    if inputs != [] {
      var n := |inputs| - 1;
      RecordsAreProper(inputs[..n], files, config, read);
      RecordIsProper(inputs[n], files, config, read);
    }
  }

  lemma TreeRecordsAreProper(entries: seq<Entry>, config: string, read: Reader)
    requires Proper(entries) && Hashes(read) && TreeRecords(entries, config, read).Some?
    ensures forall r <- TreeRecords(entries, config, read).value :: IsRecord(r)
  {
    hide Records, Inputs, Proper, Hashes, IsRecord, Relevant, Collected;
    CollectedIsRelevant(entries);
    var files := Collected(entries).value;
    RecordsAreProper(SortInputs(Inputs(files, config)), files, config, read);
  }

  /** Two trees with the same stream have the same relevant files with the same digests, and the same configuration. */
  lemma SameStreamSameInputs(a: seq<Entry>, configA: string, readA: Reader,
      b: seq<Entry>, configB: string, readB: Reader)
    requires Proper(a) && Proper(b) && Hashes(readA) && Hashes(readB)
    ensures StreamOf(a, configA, readA).Some? && StreamOf(a, configA, readA) == StreamOf(b, configB, readB) ==>
      TreeRecords(a, configA, readA) == TreeRecords(b, configB, readB)
  {
    hide Stream, Proper, Hashes, IsRecord, TreeRecords;
    if StreamOf(a, configA, readA).Some? && StreamOf(a, configA, readA) == StreamOf(b, configB, readB) {
      TreeRecordsAreProper(a, configA, readA);
      TreeRecordsAreProper(b, configB, readB);
      StreamInjective(TreeRecords(a, configA, readA).value, TreeRecords(b, configB, readB).value);
    }
  }

  // ----- the records, from the tree -----

  /** A relevant file is read and hashed. */
  predicate IsHashed(e: Entry, read: Reader) {
    e.Entry? && e.regular && IsRelevant(e.relative) && read(e.absolute).Hashed?
  }

  /** A relevant file with its digest, or the configuration with its digest or the mark that it is missing. */
  ghost predicate Recorded(entries: seq<Entry>, config: string, read: Reader, r: Record) {
    match r
    case File(path, digest) =>
      exists e <- entries :: IsHashed(e, read) && e.relative == path && read(e.absolute).digest == digest
    case Config(path, found) =>
      path == config != "" &&
      match read(config)
      case Hashed(digest) => found == Some(digest)
      case Absent => found == None
      case Broken => false
  }

  /** The walk stops, a relevant file cannot be hashed, or the configuration is there and cannot be. */
  ghost predicate CannotRead(entries: seq<Entry>, config: string, read: Reader) {
    Unwalkable in entries || (config != "" && read(config).Broken?) ||
    exists e <- entries :: e.Entry? && e.regular && IsRelevant(e.relative) && !IsHashed(e, read)
  }

  lemma {:induction false} RecordsMembers(inputs: seq<Input>, read: Reader)
    ensures Records(inputs, read).None? <==> exists x <- inputs :: RecordOf(x, read).None?
    ensures Records(inputs, read).Some? ==>
      forall r :: r in Records(inputs, read).value <==> exists x <- inputs :: RecordOf(x, read) == Some(r)
  {
    hide RecordOf;
    if inputs != [] {
      var n := |inputs| - 1;
      RecordsMembers(inputs[..n], read);
      assert inputs == inputs[..n] + [inputs[n]];
    }
  }

  /** What becomes of the inputs of a list of files. */
  lemma InputsRecorded(entries: seq<Entry>, config: string, read: Reader, files: seq<Found>)
    requires Collected(entries) == Some(files)
    ensures (exists x <- Inputs(files, config) :: RecordOf(x, read).None?) <==> CannotRead(entries, config, read)
    ensures forall r ::
      (exists x <- Inputs(files, config) :: RecordOf(x, read) == Some(r)) <==> Recorded(entries, config, read, r)
  {
    hide Inputs, IsRelevant, Collected;
    CollectedMembers(entries);
    var all := Inputs(files, config);
    var own := Input(CONFIG + [NUL] + config, config, true);
    forall x: Input
      ensures x in all <==> ((!x.allowMissing && Found(x.sortKey, x.path) in files) || (config != "" && x == own))
    {
      InputMembers(files, config, x);
    }
    assert config != "" ==> own in all;
    forall e | e in entries && e.Entry? && e.regular && IsRelevant(e.relative)
      ensures Input(e.relative, e.absolute, false) in all
    {
      assert Entry(e.relative, e.absolute, true) == e;
      assert Found(e.relative, e.absolute) in files;
    }
    forall x | x in all && !x.allowMissing ensures Entry(x.sortKey, x.path, true) in entries && IsRelevant(x.sortKey) {
      assert Found(x.sortKey, x.path) in files;
    }
    forall r: Record
      ensures (exists x <- all :: RecordOf(x, read) == Some(r)) <==> Recorded(entries, config, read, r)
    {
      if x :| x in all && RecordOf(x, read) == Some(r) {
        if !x.allowMissing {
          var e := Entry(x.sortKey, x.path, true);
          assert IsHashed(e, read);
        }
      }
      if Recorded(entries, config, read, r) {
        if r.File? {
          var e :| e in entries && IsHashed(e, read) && e.relative == r.path && read(e.absolute).digest == r.digest;
          assert RecordOf(Input(e.relative, e.absolute, false), read) == Some(r);
        } else {
          assert RecordOf(own, read) == Some(r);
        }
      }
    }
    if x :| x in all && RecordOf(x, read).None? {
      if !x.allowMissing { assert !IsHashed(Entry(x.sortKey, x.path, true), read); }
    }
    if CannotRead(entries, config, read) {
      if config != "" && read(config).Broken? {
        assert RecordOf(own, read).None?;
      } else {
        var e :| e in entries && e.Entry? && e.regular && IsRelevant(e.relative) && !IsHashed(e, read);
        assert RecordOf(Input(e.relative, e.absolute, false), read).None?;
      }
    }
  }

  lemma RecordKey(x: Input, read: Reader)
    requires RecordOf(x, read).Some? && (x.allowMissing ==> x.sortKey == CONFIG + [NUL] + x.path)
    ensures SortKey(RecordOf(x, read).value) == x.sortKey
  {
  }

  lemma {:induction false} RecordsKeys(inputs: seq<Input>, read: Reader)
    requires Records(inputs, read).Some?
    requires forall x <- inputs :: x.allowMissing ==> x.sortKey == CONFIG + [NUL] + x.path
    ensures var records := Records(inputs, read).value;
      |records| == |inputs| && forall i :: 0 <= i < |records| ==> SortKey(records[i]) == inputs[i].sortKey
  {
    hide RecordOf;
    if inputs != [] {
      var n := |inputs| - 1;
      RecordsKeys(inputs[..n], read);
      RecordKey(inputs[n], read);
    }
  }

  /** The records of a proper tree stand in the order of their keys, each key once. */
  lemma RecordsAscend(entries: seq<Entry>, config: string, read: Reader)
    requires Proper(entries) && TreeRecords(entries, config, read).Some?
    ensures var records := TreeRecords(entries, config, read).value;
      forall i, j :: 0 <= i < j < |records| ==>
        AtMost(SortKey(records[i]), SortKey(records[j])) && SortKey(records[i]) != SortKey(records[j])
  {
    hide Records, SortKey, Inputs, Proper, Collected, Relevant, AtMost;
    CollectedIsRelevant(entries);
    var files := Collected(entries).value;
    var inputs := Inputs(files, config);
    RelevantKeys(files, config);
    forall x | x in SortInputs(inputs) && x.allowMissing ensures x.sortKey == CONFIG + [NUL] + x.path {
      InputMembers(files, config, x);
    }
    RecordsKeys(SortInputs(inputs), read);
  }

  /** The stream is that of exactly these records, or there is none because something cannot be read. */
  lemma RecordedExactlyWhen(entries: seq<Entry>, config: string, read: Reader)
    ensures TreeRecords(entries, config, read).None? <==> CannotRead(entries, config, read)
    ensures TreeRecords(entries, config, read).Some? ==>
      forall r :: r in TreeRecords(entries, config, read).value <==> Recorded(entries, config, read, r)
  {
    hide Records, Inputs, Recorded, RecordOf, Collected, IsHashed, IsRelevant;
    CollectedMembers(entries);
    if Collected(entries).Some? {
      var files := Collected(entries).value;
      RecordsMembers(SortInputs(Inputs(files, config)), read);
      InputsRecorded(entries, config, read, files);
    }
  }

  // ----- the memo -----

  datatype MemoKey = MemoKey(root: string, config: string)

  /** The digest of a root and a configuration path, or an error, while the file system does not change. */
  type Digests = MemoKey -> Option<string>

  class Memo {
    var known: map<MemoKey, string>

    constructor ()
      ensures known == map[]
    {
      known := map[];
    }

    predicate Agrees(digests: Digests)
      reads this
    {
      forall k <- known :: digests(k) == Some(known[k])
    }

    /** `memoizedInputDigest`: remembers digests, not errors. */
    method DigestOf(key: MemoKey, digests: Digests) returns (digest: Option<string>)
      requires Agrees(digests)
      modifies this
      ensures Agrees(digests) && digest == digests(key)
      ensures known == if digest.Some? then old(known)[key := digest.value] else old(known)
    {
      if key in known { return Some(known[key]); }
      digest := digests(key);
      if digest.None? { return; }
      known := known[key := digest.value];
    }
  }
}
