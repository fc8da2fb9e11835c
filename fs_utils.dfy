/**
 * The file-system helpers of src/utils/fsUtils.ts over an abstract file
 * provider: resolving a possibly relative file name, discovering the project
 * root of a file, reading JSON and loading the project configuration.
 */
module FsUtils {
  import opened Wrappers
  import opened Json

  type Path = string

  /**
   * The file system as the core sees it through `fileProvider`: which paths
   * exist, the path operations, directory listings, the text of the readable
   * files and `JSON.parse` (undefined where it throws). `depth` is a measure
   * that shrinks from a path to its parent; only the model uses it.
   */
  datatype FileProvider = FileProvider(
    pathExists: Path -> bool,
    isAbsolute: Path -> bool,
    joinPath: (Path, string) -> Path,
    dirname: Path -> Path,
    fsPath: Path -> string,
    readdir: Path -> seq<string>,
    readFile: Path -> Option<string>,
    parse: string -> Option<Json>,
    depth: Path -> nat)

  /** Walking up with `dirname` ends at a fixed point, the file-system root. */
  ghost predicate Valid(fs: FileProvider)
  {
    forall p :: fs.dirname(p) != p ==> fs.depth(fs.dirname(p)) < fs.depth(p)
  }

  /** A path-like argument is truthy when present and not the empty string. */
  predicate IsTruthyPath(p: Option<Path>)
  {
    p.Some? && p.value != ""
  }

  /**
   * `toAbsoluteFilename`: an absolute `fileName` that exists is returned as
   * it is; otherwise, given a truthy `baseName`, the name is joined to the
   * base (a folder) or to the base's directory and returned when that exists;
   * otherwise the result is undefined.
   */
  function ToAbsoluteFilename(fs: FileProvider, fileName: Path, baseName: Option<Path>, isFolder: bool): (r: Option<Path>)
    ensures r.Some? ==> fs.pathExists(r.value)
    ensures fs.isAbsolute(fileName) && fs.pathExists(fileName) ==> r == Some(fileName)
    ensures !(fs.isAbsolute(fileName) && fs.pathExists(fileName)) && r.Some? ==>
              && IsTruthyPath(baseName)
              && r.value == fs.joinPath(if isFolder then baseName.value else fs.dirname(baseName.value), fs.fsPath(fileName))
    ensures r.None? <==>
              && !(fs.isAbsolute(fileName) && fs.pathExists(fileName))
              && (IsTruthyPath(baseName) ==>
                    !fs.pathExists(fs.joinPath(if isFolder then baseName.value else fs.dirname(baseName.value), fs.fsPath(fileName))))
  {
    if fs.isAbsolute(fileName) && fs.pathExists(fileName) then Some(fileName)
    else if IsTruthyPath(baseName) then
      var dirName := if isFolder then baseName.value else fs.dirname(baseName.value);
      var absolute := fs.joinPath(dirName, fs.fsPath(fileName));
      if fs.pathExists(absolute) then Some(absolute) else None
    else None
  }

  /** The files whose presence marks a project root. */
  const SearchFiles: seq<string> :=
    ["package.json", ".httpyac.json", ".httpyac.js", ".env", "http-client.env.json", "http-client.private.env.json"]

  /** `dirFiles.some(file => searchFiles.indexOf(file) >= 0)`. */
  predicate HasMarker(fs: FileProvider, dir: Path)
  {
    exists i | 0 <= i < |fs.readdir(dir)| :: fs.readdir(dir)[i] in SearchFiles
  }

  /** The join of `dir` with the first of `files` that exists there. */
  function FirstExisting(fs: FileProvider, dir: Path, files: seq<string>): (r: Option<Path>)
    ensures r.None? <==> forall k | 0 <= k < |files| :: !fs.pathExists(fs.joinPath(dir, files[k]))
    ensures r.Some? ==> exists k | 0 <= k < |files| ::
                          && r.value == fs.joinPath(dir, files[k]) && fs.pathExists(r.value)
                          && forall j | 0 <= j < k :: !fs.pathExists(fs.joinPath(dir, files[j]))
    decreases |files|
  {
    if |files| == 0 then None
    else if fs.pathExists(fs.joinPath(dir, files[0])) then Some(fs.joinPath(dir, files[0]))
    else
      var r := FirstExisting(fs, dir, files[1..]);
      assert forall k | 0 < k < |files| :: files[k] == files[1..][k - 1];
      assert r.Some? ==> exists k | 0 <= k < |files| ::
                           && r.value == fs.joinPath(dir, files[k]) && fs.pathExists(r.value)
                           && forall j | 0 <= j < k :: !fs.pathExists(fs.joinPath(dir, files[j])) by {
        if r.Some? {
          var k :| 0 <= k < |files[1..]| && r.value == fs.joinPath(dir, files[1..][k]) && fs.pathExists(r.value)
                   && forall j | 0 <= j < k :: !fs.pathExists(fs.joinPath(dir, files[1..][j]));
          assert forall j | 0 <= j < k + 1 :: !fs.pathExists(fs.joinPath(dir, files[j])) by {
            forall j | 0 <= j < k + 1 ensures !fs.pathExists(fs.joinPath(dir, files[j])) {
              if j > 0 {
                assert files[j] == files[1..][j - 1];
              }
            }
          }
        }
      }
      r
  }

  /**
   * The result `findRootDir(currentDir, ...files)` settles on: `currentDir`
   * when it holds a marker file, else the directory of the first of `files`
   * that exists under it, else the same search one directory up, and
   * undefined once `dirname` reaches its fixed point.
   */
  function RootDirOf(fs: FileProvider, currentDir: Path, files: seq<string>): Option<Path>
    requires Valid(fs)
    decreases fs.depth(currentDir)
  {
    if HasMarker(fs, currentDir) then Some(currentDir)
    else match FirstExisting(fs, currentDir, files)
      case Some(found) => Some(fs.dirname(found))
      case None =>
        if fs.dirname(currentDir) != currentDir then RootDirOf(fs, fs.dirname(currentDir), files) else None
  }

  /** `dir` and its ancestors, up to the file-system root. */
  function Ancestors(fs: FileProvider, dir: Path): (chain: seq<Path>)
    requires Valid(fs)
    ensures |chain| >= 1 && chain[0] == dir
    ensures forall i | 0 <= i < |chain| - 1 :: chain[i + 1] == fs.dirname(chain[i]) != chain[i]
    ensures fs.dirname(chain[|chain| - 1]) == chain[|chain| - 1]
    decreases fs.depth(dir)
  {
    if fs.dirname(dir) != dir then [dir] + Ancestors(fs, fs.dirname(dir)) else [dir]
  }

  /** A directory the search stops at. */
  predicate Qualifies(fs: FileProvider, dir: Path, files: seq<string>)
  {
    HasMarker(fs, dir) || FirstExisting(fs, dir, files).Some?
  }

  /** The root reported for a directory the search stops at. */
  function RootAt(fs: FileProvider, dir: Path, files: seq<string>): Path
    requires Qualifies(fs, dir, files)
  {
    if HasMarker(fs, dir) then dir else fs.dirname(FirstExisting(fs, dir, files).value)
  }

  /** The first directory of `chain` the search stops at, with the root it reports there. */
  function FirstQualifying(fs: FileProvider, chain: seq<Path>, files: seq<string>): Option<Path>
    decreases |chain|
  {
    if |chain| == 0 then None
    else if Qualifies(fs, chain[0], files) then Some(RootAt(fs, chain[0], files))
    else FirstQualifying(fs, chain[1..], files)
  }

  /**
   * `FirstQualifying` finds nothing exactly when no directory of the chain
   * qualifies, and otherwise reports the root at the first one that does.
   */
  lemma {:induction false} FirstQualifyingMeaning(fs: FileProvider, chain: seq<Path>, files: seq<string>)
    ensures var r := FirstQualifying(fs, chain, files);
            r.None? <==> forall i | 0 <= i < |chain| :: !Qualifies(fs, chain[i], files)
    ensures var r := FirstQualifying(fs, chain, files);
            r.Some? ==> exists k | 0 <= k < |chain| ::
                          && Qualifies(fs, chain[k], files) && r.value == RootAt(fs, chain[k], files)
                          && forall i | 0 <= i < k :: !Qualifies(fs, chain[i], files)
    decreases |chain|
  {
    if |chain| > 0 && !Qualifies(fs, chain[0], files) {
      var tail := chain[1..];
      FirstQualifyingMeaning(fs, tail, files);
      var r := FirstQualifying(fs, tail, files);
      assert forall k | 0 < k < |chain| :: chain[k] == tail[k - 1];
      if r.Some? {
        var k :| 0 <= k < |tail| && Qualifies(fs, tail[k], files) && r.value == RootAt(fs, tail[k], files)
                 && forall i | 0 <= i < k :: !Qualifies(fs, tail[i], files);
        assert forall i | 0 <= i < k + 1 :: !Qualifies(fs, chain[i], files) by {
          forall i | 0 <= i < k + 1 ensures !Qualifies(fs, chain[i], files) {
            if i > 0 {
              assert chain[i] == tail[i - 1];
            }
          }
        }
        assert chain[k + 1] == tail[k];
      }
    }
  }

  /**
   * The root search stops at the nearest ancestor of `dir` (`dir` itself
   * included) that holds a marker file or one of `files`, and finds nothing
   * exactly when no ancestor up to the file-system root does.
   */
  lemma {:induction false} RootDirIsNearestQualifyingAncestor(fs: FileProvider, dir: Path, files: seq<string>)
    requires Valid(fs)
    ensures RootDirOf(fs, dir, files) == FirstQualifying(fs, Ancestors(fs, dir), files)
    decreases fs.depth(dir)
  {
    var chain := Ancestors(fs, dir);
    if !Qualifies(fs, dir, files) && fs.dirname(dir) != dir {
      RootDirIsNearestQualifyingAncestor(fs, fs.dirname(dir), files);
      assert chain[1..] == Ancestors(fs, fs.dirname(dir));
    }
  }

  /**
   * `findRootDir(currentDir, ...files)`: lists `currentDir`, then tries the
   * candidate files in order, then recurses into the parent directory.
   */
  method FindRootDir(fs: FileProvider, currentDir: Path, files: seq<string>) returns (r: Option<Path>)
    requires Valid(fs)
    ensures r == RootDirOf(fs, currentDir, files)
    decreases fs.depth(currentDir)
  {
    var dirFiles := fs.readdir(currentDir);
    if exists i | 0 <= i < |dirFiles| :: dirFiles[i] in SearchFiles {
      return Some(currentDir);
    }
    var n := 0;
    while n < |files|
      invariant 0 <= n <= |files|
      invariant FirstExisting(fs, currentDir, files) == FirstExisting(fs, currentDir, files[n..])
    {
      var dir := fs.joinPath(currentDir, files[n]);
      assert files[n..][1..] == files[n + 1..];
      if fs.pathExists(dir) {
        return Some(fs.dirname(dir));
      }
      n := n + 1;
    }
    if fs.dirname(currentDir) != currentDir {
      r := FindRootDir(fs, fs.dirname(currentDir), files);
      return;
    }
    return None;
  }

  /** The file `findRootDirOfFile` starts from: a relative name is joined to a truthy working directory. */
  function StartFile(fs: FileProvider, filename: Path, workingDir: Option<Path>): (file: Path)
    ensures fs.isAbsolute(filename) || !IsTruthyPath(workingDir) ==> file == filename
    ensures !fs.isAbsolute(filename) && IsTruthyPath(workingDir) ==> file == fs.joinPath(workingDir.value, fs.fsPath(filename))
  {
    if !fs.isAbsolute(filename) && IsTruthyPath(workingDir) then fs.joinPath(workingDir.value, fs.fsPath(filename))
    else filename
  }

  /** `findRootDirOfFile`: the root search from the directory of the (resolved) file. */
  method FindRootDirOfFile(fs: FileProvider, filename: Path, workingDir: Option<Path>, files: seq<string>)
    returns (r: Option<Path>)
    requires Valid(fs)
    ensures r == RootDirOf(fs, fs.dirname(StartFile(fs, filename, workingDir)), files)
  {
    var file := StartFile(fs, filename, workingDir);
    r := FindRootDir(fs, fs.dirname(file), files);
  }

  /**
   * `parseJson`: the parsed text of a readable file; a file that cannot be
   * read or parsed gives undefined (the error is swallowed).
   */
  function ParseJson(fs: FileProvider, fileName: Path): (r: Option<Json>)
    ensures r.Some? <==> fs.readFile(fileName).Some? && fs.parse(fs.readFile(fileName).value).Some?
    ensures r.Some? ==> r == fs.parse(fs.readFile(fileName).value)
  {
    match fs.readFile(fileName)
    case None => None
    case Some(text) => fs.parse(text)
  }

  /** The certificate fields whose paths are resolved. */
  const CertificateFields: set<string> := {"cert", "key", "pfx"}

  /**
   * `if (value.f) value.f = await toAbsoluteFilename(value.f, rootDir, true) || value.f`
   * for the value of one certificate field: with a non-empty root directory,
   * a non-empty path that is not already an existing absolute path becomes
   * its join under the root directory when that join exists (and is not the
   * empty string); every other value stays as it is.
   */
  function ResolvedPath(fs: FileProvider, value: Json, rootDir: Path): (r: Json)
    ensures !(value.JString? && value.s != "") ==> r == value
    ensures value.JString? && value.s != "" && fs.isAbsolute(value.s) && fs.pathExists(value.s) ==> r == value
    ensures rootDir == "" ==> r == value
    ensures value.JString? && value.s != "" && rootDir != "" && !(fs.isAbsolute(value.s) && fs.pathExists(value.s)) ==>
              var joined := fs.joinPath(rootDir, fs.fsPath(value.s));
              r == if fs.pathExists(joined) && joined != "" then JString(joined) else value
    ensures r == value || (r.JString? && r.s != "" && fs.pathExists(r.s))
  {
    if value.JString? && value.s != "" then
      match ToAbsoluteFilename(fs, value.s, Some(rootDir), true)
      case Some(absolute) => if absolute != "" then JString(absolute) else value
      case None => value
    else value
  }

  /**
   * One entry of `clientCertificates` with its `cert`, `key` and `pfx` paths
   * resolved against the root directory: an object entry keeps its keys and
   * every other field, and each of the three fields it has is `ResolvedPath`
   * of its value; an entry that is not an object is left alone.
   */
  function ResolveEntry(fs: FileProvider, value: Json, rootDir: Path): (r: Json)
    ensures r.JObject? <==> value.JObject?
    ensures !value.JObject? ==> r == value
    ensures value.JObject? ==> r.fields.Keys == value.fields.Keys
    ensures value.JObject? ==> forall k | k in value.fields && k !in CertificateFields :: r.fields[k] == value.fields[k]
    ensures value.JObject? ==> forall k | k in value.fields && k in CertificateFields ::
                                 r.fields[k] == ResolvedPath(fs, value.fields[k], rootDir)
  {
    if value.JObject? then
      JObject(map k | k in value.fields ::
                if k in CertificateFields then ResolvedPath(fs, value.fields[k], rootDir) else value.fields[k])
    else value
  }

  /**
   * The configuration after `resolveClientCertficates`: when
   * `clientCertificates` is truthy, each of its entries (the values of an
   * object, the items of an array) is resolved by `ResolveEntry`, keeping the
   * keys or the number of items; nothing else changes.
   */
  function ResolvedClientCertificates(fs: FileProvider, config: Json, rootDir: Path): (r: Json)
    ensures !IsTruthy(Property(config, "clientCertificates")) ==> r == config
    ensures IsTruthy(Property(config, "clientCertificates")) ==>
              && r.JObject? && r.fields.Keys == config.fields.Keys
              && forall k | k in config.fields && k != "clientCertificates" :: r.fields[k] == config.fields[k]
    ensures var certificates := Property(config, "clientCertificates");
            IsTruthy(certificates) && certificates.value.JObject? ==>
              var resolved := r.fields["clientCertificates"];
              && resolved.JObject? && resolved.fields.Keys == certificates.value.fields.Keys
              && forall k | k in resolved.fields :: resolved.fields[k] == ResolveEntry(fs, certificates.value.fields[k], rootDir)
    ensures var certificates := Property(config, "clientCertificates");
            IsTruthy(certificates) && certificates.value.JArray? ==>
              var resolved := r.fields["clientCertificates"];
              && resolved.JArray? && |resolved.items| == |certificates.value.items|
              && forall i | 0 <= i < |resolved.items| :: resolved.items[i] == ResolveEntry(fs, certificates.value.items[i], rootDir)
    ensures var certificates := Property(config, "clientCertificates");
            IsTruthy(certificates) && !certificates.value.JObject? && !certificates.value.JArray? ==> r == config
  {
    var certificates := Property(config, "clientCertificates");
    if IsTruthy(certificates) then
      JObject(config.fields["clientCertificates" := ResolvedEntries(fs, certificates.value, rootDir)])
    else config
  }

  /** `Object.entries(certificates)` with every value resolved; other values have no entries that change. */
  function ResolvedEntries(fs: FileProvider, certificates: Json, rootDir: Path): Json
  {
    match certificates
    case JObject(fields) => JObject(map k | k in fields :: ResolveEntry(fs, fields[k], rootDir))
    case JArray(items) => JArray(seq(|items|, i requires 0 <= i < |items| => ResolveEntry(fs, items[i], rootDir)))
    case _ => certificates
  }

  /**
   * A certificate path of an entry given relative to the project root is
   * rewritten to its join under the root when that file exists.
   */
  lemma ExistingCertificatePathIsResolved(fs: FileProvider, entry: Json, field: string, rootDir: Path)
    requires rootDir != "" && entry.JObject? && field in CertificateFields && field in entry.fields
    requires entry.fields[field].JString? && entry.fields[field].s != ""
    requires !fs.isAbsolute(entry.fields[field].s)
    requires fs.pathExists(fs.joinPath(rootDir, fs.fsPath(entry.fields[field].s)))
    requires fs.joinPath(rootDir, fs.fsPath(entry.fields[field].s)) != ""
    ensures ResolveEntry(fs, entry, rootDir).fields[field] == JString(fs.joinPath(rootDir, fs.fsPath(entry.fields[field].s)))
  {
  }

  /** `resolveClientCertficates`: the loop over the certificate entries, as a value-returning update. */
  method ResolveClientCertificates(fs: FileProvider, config: Json, rootDir: Path) returns (resolved: Json)
    ensures resolved == ResolvedClientCertificates(fs, config, rootDir)
  {
    resolved := config;
    var certificates := Property(config, "clientCertificates");
    if IsTruthy(certificates) {
      var entries := certificates.value;
      var updated := entries;
      if entries.JObject? {
        var fields := ResolveNamedEntries(fs, entries.fields, rootDir);
        updated := JObject(fields);
      } else if entries.JArray? {
        var items := ResolveListedEntries(fs, entries.items, rootDir);
        updated := JArray(items);
      }
      assert updated == ResolvedEntries(fs, entries, rootDir);
      resolved := JObject(config.fields["clientCertificates" := updated]);
    }
  }

  /** The loop over `Object.entries` of certificates listed by name. */
  method ResolveNamedEntries(fs: FileProvider, entries: map<string, Json>, rootDir: Path) returns (fields: map<string, Json>)
    ensures fields == map k | k in entries :: ResolveEntry(fs, entries[k], rootDir)
  {
    fields := entries;
    var pending := fields.Keys;
    while pending != {}
      invariant pending <= entries.Keys == fields.Keys
      invariant forall k | k in fields ::
                  fields[k] == if k in pending then entries[k] else ResolveEntry(fs, entries[k], rootDir)
      decreases |pending|
    {
      var k :| k in pending;
      fields := fields[k := ResolveEntry(fs, fields[k], rootDir)];
      pending := pending - {k};
    }
  }

  /** The loop over `Object.entries` of certificates listed in an array. */
  method ResolveListedEntries(fs: FileProvider, entries: seq<Json>, rootDir: Path) returns (items: seq<Json>)
    ensures items == seq(|entries|, j requires 0 <= j < |entries| => ResolveEntry(fs, entries[j], rootDir))
  {
    items := entries;
    var i := 0;
    while i < |items|
      invariant 0 <= i <= |items| == |entries|
      invariant forall j | 0 <= j < |items| ::
                  items[j] == if j < i then ResolveEntry(fs, entries[j], rootDir) else entries[j]
    {
      items := items[i := ResolveEntry(fs, items[i], rootDir)];
      i := i + 1;
    }
  }

  /**
   * The project configuration `getHttpacJsonConfig` yields: `.httpyac.json`
   * when it parses to a truthy value, otherwise the `httpyac` property of
   * `package.json`; a truthy result has its client certificates resolved.
   */
  function HttpyacJsonConfig(fs: FileProvider, rootDir: Path): Option<Json>
  {
    var dedicated := ParseJson(fs, fs.joinPath(rootDir, ".httpyac.json"));
    var result :=
      if IsTruthy(dedicated) then dedicated
      else
        var packageJson := ParseJson(fs, fs.joinPath(rootDir, "package.json"));
        if packageJson.Some? then Property(packageJson.value, "httpyac") else None;
    if IsTruthy(result) then Some(ResolvedClientCertificates(fs, result.value, rootDir)) else result
  }

  /**
   * A truthy `.httpyac.json` always wins over `package.json`, which is read
   * only when the dedicated file is missing, unparsable or falsy; then its
   * `httpyac` value is the configuration, with certificates resolved when it
   * is truthy.
   */
  lemma DedicatedConfigWins(fs: FileProvider, rootDir: Path)
    ensures var dedicated := ParseJson(fs, fs.joinPath(rootDir, ".httpyac.json"));
            IsTruthy(dedicated) ==> HttpyacJsonConfig(fs, rootDir) == Some(ResolvedClientCertificates(fs, dedicated.value, rootDir))
    ensures var dedicated := ParseJson(fs, fs.joinPath(rootDir, ".httpyac.json"));
            var packageJson := ParseJson(fs, fs.joinPath(rootDir, "package.json"));
            && !IsTruthy(dedicated)
            && (packageJson.None? || Property(packageJson.value, "httpyac").None?)
            ==> HttpyacJsonConfig(fs, rootDir).None?
    ensures var dedicated := ParseJson(fs, fs.joinPath(rootDir, ".httpyac.json"));
            var packageJson := ParseJson(fs, fs.joinPath(rootDir, "package.json"));
            var nested := if packageJson.Some? then Property(packageJson.value, "httpyac") else None;
            !IsTruthy(dedicated) ==>
              HttpyacJsonConfig(fs, rootDir) == if IsTruthy(nested) then Some(ResolvedClientCertificates(fs, nested.value, rootDir)) else nested
  {
  }

  /** `getHttpacJsonConfig`: the dedicated file, then the `package.json` fallback, then certificate resolution. */
  method GetHttpacJsonConfig(fs: FileProvider, rootDir: Path) returns (result: Option<Json>)
    ensures result == HttpyacJsonConfig(fs, rootDir)
  {
    result := ParseJson(fs, fs.joinPath(rootDir, ".httpyac.json"));
    if !IsTruthy(result) {
      var packageJson := ParseJson(fs, fs.joinPath(rootDir, "package.json"));
      result := if packageJson.Some? then Property(packageJson.value, "httpyac") else None;
    }
    if IsTruthy(result) {
      var resolved := ResolveClientCertificates(fs, result.value, rootDir);
      result := Some(resolved);
    }
  }
}
