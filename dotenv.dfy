/** The environment-file loader bundled with the extension (dotenv 16.4.5):
    how one matched line becomes a value, how the values of a file fill an
    object, how that object is merged into another (`populate`), how several
    files are loaded in turn (`configDotenv`), and how `config` chooses
    between plain and encrypted files. The line tokeniser, the file reads and
    the decryption are inputs. */
module Dotenv {
  import opened Wrappers
  import opened Text

  // ---------------------------------------------------------------------
  // Values

  predicate IsQuote(c: char) {
    c == '\'' || c == '"' || c == '`'
  }

  /** The quote-stripping replacement of `parse` on a one-line value: a
      value that starts and ends with the same quote character loses that
      pair. */
  function StripQuotes(value: string): string {
    if |value| >= 2 && IsQuote(value[0]) && value[|value| - 1] == value[0]
    then value[1..|value| - 1]
    else value
  }

  /** The value `parse` stores for a matched line whose value text is `raw`
      (missing when the line has none): trimmed, unquoted, and with `\n` and
      `\r` expanded when it began with a double quote. */
  function ParsedValue(raw: Option<string>): (value: string)
    ensures |value| <= |raw.GetOr("")|
    ensures raw == None ==> value == ""
  {
    TrimmedValue(Trim(raw.GetOr("")))
  }

  /** What `parse` makes of a value text it has already trimmed. */
  function TrimmedValue(trimmed: string): (value: string)
    ensures |value| <= |trimmed|
  {
    var unquoted := StripQuotes(trimmed);
    if trimmed != "" && trimmed[0] == '"'
    then ExpandEscape(ExpandEscape(unquoted, 'n', '\n'), 'r', '\r')
    else unquoted
  }

  lemma StripPair(q: char, inner: string)
    requires IsQuote(q)
    ensures StripQuotes([q] + inner + [q]) == inner
  {
    var quoted := [q] + inner + [q];
    assert quoted[0] == q && quoted[|quoted| - 1] == q;
    assert quoted[1..|quoted| - 1] == inner;
  }

  /** A value text without white space to trim and not starting with a
      double quote is only unquoted. */
  lemma ValueWithoutDoubleQuote(text: string)
    requires text != [] && !IsWhiteSpace(text[0]) && !IsWhiteSpace(text[|text| - 1])
    requires text[0] != '"'
    ensures ParsedValue(Some(text)) == StripQuotes(text)
  {
    TrimUnchanged(text);
  }

  /** A value text without white space to trim and starting with a double
      quote is unquoted and has its escapes expanded. */
  lemma ValueWithDoubleQuote(text: string)
    requires text != [] && !IsWhiteSpace(text[0]) && !IsWhiteSpace(text[|text| - 1])
    requires text[0] == '"'
    ensures ParsedValue(Some(text)) == ExpandEscape(ExpandEscape(StripQuotes(text), 'n', '\n'), 'r', '\r')
  {
    TrimUnchanged(text);
  }

  /** A value in single quotes or backticks loses its quotes and is kept
      literally, escapes included. */
  lemma LiteralQuotedValue(q: char, inner: string)
    requires q == '\'' || q == '`'
    ensures ParsedValue(Some([q] + inner + [q])) == inner
  {
    var quoted := [q] + inner + [q];
    assert quoted[0] == q && quoted[|quoted| - 1] == q;
    ValueWithoutDoubleQuote(quoted);
    StripPair(q, inner);
  }

  /** A double-quoted value loses its quotes and has its `\n` and `\r`
      escapes turned into line breaks and carriage returns, and no such
      escape is left in it. */
  lemma DoubleQuotedValue(inner: string)
    ensures ParsedValue(Some("\"" + inner + "\""))
         == ExpandEscape(ExpandEscape(inner, 'n', '\n'), 'r', '\r')
    ensures !HasEscape(ParsedValue(Some("\"" + inner + "\"")), 'n')
    ensures !HasEscape(ParsedValue(Some("\"" + inner + "\"")), 'r')
  {
    var quoted := "\"" + inner + "\"";
    assert quoted[0] == '"' && quoted[|quoted| - 1] == '"';
    ValueWithDoubleQuote(quoted);
    StripPair('"', inner);
    var once := ExpandEscape(inner, 'n', '\n');
    ExpandEscapeComplete(inner, 'n', '\n');
    ExpandEscapeComplete(once, 'r', '\r');
    ExpandEscapeKeepsOthersAbsent(once, 'r', '\r', 'n');
  }

  /** The value of a line depends only on its value text once trimmed. */
  lemma ParsedValueTrims(text: string)
    ensures ParsedValue(Some(text)) == ParsedValue(Some(Trim(text)))
  {
    TrimUnchanged(Trim(text));
  }

  /** White space around a value text is dropped: `K=  'x'  ` gives what
      `K='x'` gives. */
  lemma PaddedValue(before: string, text: string, after: string)
    requires forall k :: 0 <= k < |before| ==> IsWhiteSpace(before[k])
    requires forall k :: 0 <= k < |after| ==> IsWhiteSpace(after[k])
    requires text != [] && !IsWhiteSpace(text[0]) && !IsWhiteSpace(text[|text| - 1])
    ensures ParsedValue(Some(before + text + after)) == ParsedValue(Some(text))
  {
    TrimPadded(before, text, after);
    TrimUnchanged(text);
  }

  // ---------------------------------------------------------------------
  // parse

  /** One line the tokeniser matched: its key, and its value text when the
      line has one. */
  datatype LineMatch = LineMatch(key: string, raw: Option<string>)

  /** The one key the tokeniser accepts that a plain object does not store:
      assigning a string to `__proto__` goes to the inherited setter, which
      ignores anything but an object. */
  const ProtoKey := "__proto__"

  /** `obj[key] = value` on an object created as `{}`. */
  function Assign(obj: map<string, string>, key: string, value: string): map<string, string> {
    if key == ProtoKey then obj else obj[key := value]
  }

  /** The object `parse` builds, continuing from `acc`: each line sets its
      key, so a later line overrides an earlier one. */
  function ParsedFrom(acc: map<string, string>, matches: seq<LineMatch>): map<string, string>
    decreases |matches|
  {
    if matches == [] then acc
    else ParsedFrom(Assign(acc, matches[0].key, ParsedValue(matches[0].raw)), matches[1..])
  }

  function ParseMatches(matches: seq<LineMatch>): map<string, string> {
    ParsedFrom(map[], matches)
  }

  /** `parse`: the loop over the matched lines, filling `obj`. */
  method Parse(matches: seq<LineMatch>) returns (obj: map<string, string>)
    ensures obj == ParseMatches(matches)
  {
    obj := map[];
    var i := 0;
    while i < |matches|
      invariant 0 <= i <= |matches|
      invariant ParsedFrom(obj, matches[i..]) == ParseMatches(matches)
    {
      assert matches[i..][1..] == matches[i + 1..];
      obj := Assign(obj, matches[i].key, ParsedValue(matches[i].raw));
      i := i + 1;
    }
  }

  lemma {:induction false} ParsedFromKeys(acc: map<string, string>, matches: seq<LineMatch>)
    ensures ParsedFrom(acc, matches).Keys == acc.Keys + (set m | m in matches && m.key != ProtoKey :: m.key)
    decreases |matches|
  {
    if matches != [] {
      ParsedFromKeys(Assign(acc, matches[0].key, ParsedValue(matches[0].raw)), matches[1..]);
      assert forall m :: m in matches <==> m == matches[0] || m in matches[1..];
    }
  }

  lemma {:induction false} ParsedFromKeeps(acc: map<string, string>, matches: seq<LineMatch>, k: string)
    requires k in acc
    requires forall i :: 0 <= i < |matches| ==> matches[i].key != k
    ensures k in ParsedFrom(acc, matches) && ParsedFrom(acc, matches)[k] == acc[k]
    decreases |matches|
  {
    if matches != [] {
      ParsedFromKeeps(Assign(acc, matches[0].key, ParsedValue(matches[0].raw)), matches[1..], k);
    }
  }

  lemma {:induction false} ParsedFromLastWins(acc: map<string, string>, matches: seq<LineMatch>, j: nat)
    requires j < |matches|
    requires forall i :: j < i < |matches| ==> matches[i].key != matches[j].key
    ensures matches[j].key != ProtoKey ==>
      && matches[j].key in ParsedFrom(acc, matches)
      && ParsedFrom(acc, matches)[matches[j].key] == ParsedValue(matches[j].raw)
    decreases |matches|
  {
    var next := Assign(acc, matches[0].key, ParsedValue(matches[0].raw));
    if j == 0 {
      if matches[0].key != ProtoKey {
        ParsedFromKeeps(next, matches[1..], matches[0].key);
      }
    } else {
      ParsedFromLastWins(next, matches[1..], j - 1);
    }
  }

  /** The parsed object has exactly the keys of the matched lines other than
      `__proto__`, and each holds the value of the last line that names it. */
  lemma ParseLastLineWins(matches: seq<LineMatch>, j: nat)
    requires j < |matches|
    requires forall i :: j < i < |matches| ==> matches[i].key != matches[j].key
    ensures ParseMatches(matches).Keys == set m | m in matches && m.key != ProtoKey :: m.key
    ensures matches[j].key != ProtoKey ==> ParseMatches(matches)[matches[j].key] == ParsedValue(matches[j].raw)
  {
    ParsedFromKeys(map[], matches);
    ParsedFromLastWins(map[], matches, j);
  }

  // ---------------------------------------------------------------------
  // populate

  /** A JavaScript object used as a dictionary of strings and changed in
      place: `process.env`, or the object `configDotenv` accumulates in. */
  class EnvObject {
    var vars: map<string, string>

    constructor (vars: map<string, string>)
      ensures this.vars == vars
    {
      this.vars := vars;
    }
  }

  /** The `parsed` argument of `populate`: an object, `null`, or a value of
      another type. */
  datatype ParsedArgument =
    | ObjectArgument(entries: map<string, string>)
    | NullArgument
    | PrimitiveArgument

  datatype PopulateError =
    | ObjectRequired       // `OBJECT_REQUIRED`, raised for a non-object
    | NullNotConvertible   // the `TypeError` `Object.keys(null)` raises

  /** The dictionary `populate` leaves: keys only in `parsed` are added, keys
      in both take `parsed`'s value only when overriding, and keys only in
      the target keep their value. */
  function Populated(target: map<string, string>, parsed: map<string, string>, override: bool): (r: map<string, string>)
    ensures r.Keys == target.Keys + parsed.Keys
    ensures forall k :: k in parsed && k !in target ==> r[k] == parsed[k]
    ensures forall k :: k in parsed && k in target ==> r[k] == (if override then parsed[k] else target[k])
    ensures forall k :: k in target && k !in parsed ==> r[k] == target[k]
  {
    if override then target + parsed else parsed + target
  }

  /** Handling one more key of `parsed`: it is set unless it is already in
      the target and `override` is off. */
  lemma PopulatedStep(start: map<string, string>, entries: map<string, string>,
                      pending: set<string>, key: string, override: bool)
    requires key in pending && pending <= entries.Keys
    ensures var current := Populated(start, entries - pending, override);
      Populated(start, entries - (pending - {key}), override)
      == if key in current && !override then current else current[key := entries[key]]
  {
    var done := entries - pending;
    assert entries - (pending - {key}) == done[key := entries[key]];
  }

  /** `populate`: the loop over the keys of `parsed`, in any order, setting
      each key in `target` unless it is there already and `override` is
      off. A `parsed` that is not an object is refused before anything
      changes. */
  method Populate(target: EnvObject, parsed: ParsedArgument, override: bool)
    returns (error: Option<PopulateError>)
    modifies target
    ensures parsed.ObjectArgument? ==>
      error == None && target.vars == Populated(old(target.vars), parsed.entries, override)
    ensures parsed.PrimitiveArgument? ==> error == Some(ObjectRequired) && target.vars == old(target.vars)
    ensures parsed.NullArgument? ==> error == Some(NullNotConvertible) && target.vars == old(target.vars)
  {
    match parsed
    case PrimitiveArgument =>
      return Some(ObjectRequired);
    case NullArgument =>
      return Some(NullNotConvertible);
    case ObjectArgument(entries) =>
      ghost var start := target.vars;
      var pending := entries.Keys;
      while pending != {}
        invariant pending <= entries.Keys
        invariant target.vars == Populated(start, entries - pending, override)
        decreases pending
      {
        var key :| key in pending;
        PopulatedStep(start, entries, pending, key, override);
        if key in target.vars {
          if override {
            target.vars := target.vars[key := entries[key]];
          }
        } else {
          target.vars := target.vars[key := entries[key]];
        }
        pending := pending - {key};
      }
      assert entries - {} == entries;
      return None;
  }

  // ---------------------------------------------------------------------
  // Paths

  /** `path.join(base, tail)` without normalisation: one separator between
      two non-empty parts. */
  function JoinPath(base: string, tail: string): string {
    if tail == "" then base
    else if base == "" then tail
    else if base[|base| - 1] == '/' && tail[0] == '/' then base + tail[1..]
    else if base[|base| - 1] == '/' || tail[0] == '/' then base + tail
    else base + "/" + tail
  }

  /** `_resolveHome`: a path starting with `~` is taken relative to the home
      directory; every other path is kept. */
  function ResolveHome(envPath: string, home: string): (resolved: string)
    ensures resolved != envPath ==> StartsWith(envPath, "~")
    ensures StartsWith(envPath, "~") ==> resolved == JoinPath(home, envPath[1..])
  {
    if envPath != [] && envPath[0] == '~' then JoinPath(home, envPath[1..]) else envPath
  }

  /** The vault file for an env file: the path itself when it already ends
      in `.vault`, otherwise the path with `.vault` appended. */
  function VaultFileName(path: string): (vault: string)
    ensures EndsWith(vault, ".vault")
    ensures StartsWith(vault, path)
    ensures EndsWith(path, ".vault") <==> vault == path
    ensures !EndsWith(path, ".vault") ==> vault == path + ".vault"
  {
    if EndsWith(path, ".vault") then path else path + ".vault"
  }

  /** Naming a vault file again changes nothing. */
  lemma VaultFileNameIdempotent(path: string)
    ensures VaultFileName(VaultFileName(path)) == VaultFileName(path)
  {
  }

  datatype PathOption = NoPath | OnePath(path: string) | PathList(paths: seq<string>)

  /** The options of `config` the model keeps (`debug` and `encoding` are
      left out; `processEnv` is always the process environment). */
  datatype Options = Options(path: PathOption, dotenvKey: string, override: bool)

  /** The files `configDotenv` reads: the default `.env` in `cwd` unless a
      path (a non-empty string, or any list) is given, each with `~`
      resolved. */
  function OptionPaths(options: Options, cwd: string, home: string): (paths: seq<string>)
    ensures options.path.PathList? ==>
      && |paths| == |options.path.paths|
      && forall i :: 0 <= i < |paths| ==> paths[i] == ResolveHome(options.path.paths[i], home)
    ensures options.path.NoPath? || options.path == OnePath("") ==> paths == [JoinPath(cwd, ".env")]
    ensures options.path.OnePath? && options.path.path != "" ==> paths == [ResolveHome(options.path.path, home)]
  {
    match options.path
    case NoPath => [JoinPath(cwd, ".env")]
    case OnePath(p) => if p == "" then [JoinPath(cwd, ".env")] else [ResolveHome(p, home)]
    case PathList(ps) => seq(|ps|, i requires 0 <= i < |ps| => ResolveHome(ps[i], home))
  }

  /** The last path in the list that exists. */
  function LastExisting(paths: seq<string>, existing: set<string>): (found: Option<string>)
    ensures found.Some? ==>
      && found.value in existing
      && exists j :: 0 <= j < |paths| && paths[j] == found.value &&
           forall i :: j < i < |paths| ==> paths[i] !in existing
    ensures found.None? ==> forall i :: 0 <= i < |paths| ==> paths[i] !in existing
  {
    if paths == [] then None
    else if Last(paths) in existing then Some(Last(paths))
    else LastExisting(paths[..|paths| - 1], existing)
  }

  /** Looking at one more path: it is the answer when it exists. */
  lemma LastExistingStep(paths: seq<string>, i: nat, existing: set<string>)
    requires i < |paths|
    ensures LastExisting(paths[..i + 1], existing)
         == if paths[i] in existing then Some(paths[i]) else LastExisting(paths[..i], existing)
  {
    assert paths[..i + 1][..i] == paths[..i];
  }

  /** The file `_vaultPath` checks for: the vault of the last existing listed
      path, the vault of the single path, or `.env.vault` in `cwd`. */
  function VaultCandidate(options: Options, cwd: string, existing: set<string>): Option<string> {
    match options.path
    case PathList(ps) =>
      if ps == [] then Some(JoinPath(cwd, ".env.vault"))
      else (match LastExisting(ps, existing)
        case None => None
        case Some(p) => Some(VaultFileName(p)))
    case OnePath(p) =>
      if p == "" then Some(JoinPath(cwd, ".env.vault")) else Some(VaultFileName(p))
    case NoPath => Some(JoinPath(cwd, ".env.vault"))
  }

  /** `_vaultPath`: the candidate vault file when it exists. */
  method VaultPath(options: Options, cwd: string, existing: set<string>) returns (vaultPath: Option<string>)
    ensures vaultPath.Some? ==> vaultPath.value in existing
    ensures vaultPath == (var c := VaultCandidate(options, cwd, existing);
                          if c.Some? && c.value in existing then c else None)
  {
    var candidate: Option<string> := None;
    match options.path {
      case PathList(ps) =>
        if ps == [] {
          candidate := Some(JoinPath(cwd, ".env.vault"));
        } else {
          var i := 0;
          while i < |ps|
            invariant 0 <= i <= |ps|
            invariant candidate == (match LastExisting(ps[..i], existing)
                                    case None => None
                                    case Some(p) => Some(VaultFileName(p)))
          {
            LastExistingStep(ps, i, existing);
            if ps[i] in existing {
              candidate := Some(VaultFileName(ps[i]));
            }
            i := i + 1;
          }
          assert ps[..i] == ps;
        }
      case OnePath(p) =>
        candidate := if p == "" then Some(JoinPath(cwd, ".env.vault")) else Some(VaultFileName(p));
      case NoPath =>
        candidate := Some(JoinPath(cwd, ".env.vault"));
    }
    if candidate.Some? && candidate.value in existing {
      vaultPath := candidate;
    } else {
      vaultPath := None;
    }
  }

  /** `_dotenvKey`: the key given in the options if non-empty, else a
      non-empty `DOTENV_KEY` from the environment, else the empty string. */
  function DotenvKey(options: Options, env: map<string, string>): (key: string)
    ensures options.dotenvKey != "" ==> key == options.dotenvKey
    ensures options.dotenvKey == "" ==> key == (if "DOTENV_KEY" in env then env["DOTENV_KEY"] else "")
    ensures key == "" <==> options.dotenvKey == "" && ("DOTENV_KEY" !in env || env["DOTENV_KEY"] == "")
  {
    if options.dotenvKey != "" then options.dotenvKey
    else if "DOTENV_KEY" in env && env["DOTENV_KEY"] != "" then env["DOTENV_KEY"]
    else ""
  }

  // ---------------------------------------------------------------------
  // configDotenv and config

  /** The readable files, each given by the lines the tokeniser matches in
      it; reading any other path fails. */
  type EnvFiles = map<string, seq<LineMatch>>

  datatype LoadError = ReadFailed(path: string)

  /** `parsedAll` and `lastError` while `configDotenv` goes through its
      paths. */
  datatype LoadState = LoadState(parsed: map<string, string>, lastError: Option<LoadError>)

  function LoadStep(state: LoadState, path: string, files: EnvFiles, override: bool): LoadState {
    if path in files
    then LoadState(Populated(state.parsed, ParseMatches(files[path]), override), state.lastError)
    else LoadState(state.parsed, Some(ReadFailed(path)))
  }

  function LoadAll(state: LoadState, paths: seq<string>, files: EnvFiles, override: bool): LoadState
    decreases |paths|
  {
    if paths == [] then state
    else LoadAll(LoadStep(state, paths[0], files, override), paths[1..], files, override)
  }

  predicate Defines(files: EnvFiles, path: string, key: string) {
    path in files && key in ParseMatches(files[path])
  }

  lemma {:induction false} LoadAllUntouched(state: LoadState, paths: seq<string>, files: EnvFiles,
                                            override: bool, key: string)
    requires forall i :: 0 <= i < |paths| ==> !Defines(files, paths[i], key)
    ensures key in LoadAll(state, paths, files, override).parsed <==> key in state.parsed
    ensures key in state.parsed ==> LoadAll(state, paths, files, override).parsed[key] == state.parsed[key]
    decreases |paths|
  {
    if paths != [] {
      LoadAllUntouched(LoadStep(state, paths[0], files, override), paths[1..], files, override, key);
    }
  }

  lemma {:induction false} LoadAllKeepsFirst(state: LoadState, paths: seq<string>, files: EnvFiles, key: string)
    requires key in state.parsed
    ensures key in LoadAll(state, paths, files, false).parsed
    ensures LoadAll(state, paths, files, false).parsed[key] == state.parsed[key]
    decreases |paths|
  {
    if paths != [] {
      LoadAllKeepsFirst(LoadStep(state, paths[0], files, false), paths[1..], files, key);
    }
  }

  /** Without override the first file that defines a key decides its value;
      later files cannot change it. */
  lemma {:induction false} FirstFileWins(state: LoadState, paths: seq<string>, files: EnvFiles, key: string, j: nat)
    requires key !in state.parsed
    requires j < |paths| && Defines(files, paths[j], key)
    requires forall i :: 0 <= i < j ==> !Defines(files, paths[i], key)
    ensures key in LoadAll(state, paths, files, false).parsed
    ensures LoadAll(state, paths, files, false).parsed[key] == ParseMatches(files[paths[j]])[key]
    decreases |paths|
  {
    var next := LoadStep(state, paths[0], files, false);
    if j == 0 {
      LoadAllKeepsFirst(next, paths[1..], files, key);
    } else {
      FirstFileWins(next, paths[1..], files, key, j - 1);
    }
  }

  /** With override the last file that defines a key decides its value. */
  lemma {:induction false} LastFileWins(state: LoadState, paths: seq<string>, files: EnvFiles, key: string, j: nat)
    requires j < |paths| && Defines(files, paths[j], key)
    requires forall i :: j < i < |paths| ==> !Defines(files, paths[i], key)
    ensures key in LoadAll(state, paths, files, true).parsed
    ensures LoadAll(state, paths, files, true).parsed[key] == ParseMatches(files[paths[j]])[key]
    decreases |paths|
  {
    var next := LoadStep(state, paths[0], files, true);
    if j == 0 {
      LoadAllUntouched(next, paths[1..], files, true, key);
    } else {
      LastFileWins(next, paths[1..], files, key, j - 1);
    }
  }

  /** When every path can be read, no error is recorded. */
  lemma {:induction false} LoadWithoutFailures(state: LoadState, paths: seq<string>, files: EnvFiles, override: bool)
    requires forall i :: 0 <= i < |paths| ==> paths[i] in files
    ensures LoadAll(state, paths, files, override).lastError == state.lastError
    decreases |paths|
  {
    if paths != [] {
      LoadWithoutFailures(LoadStep(state, paths[0], files, override), paths[1..], files, override);
    }
  }

  /** A failed read is remembered but does not stop the loop: the error
      reported is that of the last path that could not be read. */
  lemma {:induction false} LastFailureReported(state: LoadState, paths: seq<string>, files: EnvFiles,
                                               override: bool, j: nat)
    requires j < |paths| && paths[j] !in files
    requires forall i :: j < i < |paths| ==> paths[i] in files
    ensures LoadAll(state, paths, files, override).lastError == Some(ReadFailed(paths[j]))
    decreases |paths|
  {
    var next := LoadStep(state, paths[0], files, override);
    if j == 0 {
      LoadWithoutFailures(next, paths[1..], files, override);
    } else {
      LastFailureReported(next, paths[1..], files, override, j - 1);
    }
  }

  datatype ConfigResult = ConfigResult(parsed: map<string, string>, error: Option<LoadError>)

  /** What `configDotenv` returns for the given options. */
  function ConfigDotenvResult(options: Options, cwd: string, home: string, files: EnvFiles): ConfigResult {
    var loaded := LoadAll(LoadState(map[], None), OptionPaths(options, cwd, home), files, options.override);
    ConfigResult(loaded.parsed, loaded.lastError)
  }

  /** `configDotenv`: every path is read and merged in order into a fresh
      object, failures only recorded; the result is then merged into the
      process environment. */
  method ConfigDotenv(options: Options, cwd: string, home: string, files: EnvFiles, processEnv: EnvObject)
    returns (result: ConfigResult)
    modifies processEnv
    ensures result == ConfigDotenvResult(options, cwd, home, files)
    ensures processEnv.vars == Populated(old(processEnv.vars), result.parsed, options.override)
  {
    var paths := OptionPaths(options, cwd, home);
    var parsedAll := new EnvObject(map[]);
    var lastError: Option<LoadError> := None;
    var i := 0;
    while i < |paths|
      invariant 0 <= i <= |paths|
      invariant processEnv.vars == old(processEnv.vars)
      invariant LoadAll(LoadState(parsedAll.vars, lastError), paths[i..], files, options.override)
             == LoadAll(LoadState(map[], None), paths, files, options.override)
    {
      ghost var before := LoadState(parsedAll.vars, lastError);
      var path := paths[i];
      if path in files {
        var parsed := Parse(files[path]);
        var _ := Populate(parsedAll, ObjectArgument(parsed), options.override);
      } else {
        lastError := Some(ReadFailed(path));
      }
      assert LoadState(parsedAll.vars, lastError) == LoadStep(before, path, files, options.override);
      assert paths[i..][1..] == paths[i + 1..];
      i := i + 1;
    }
    var _ := Populate(processEnv, ObjectArgument(parsedAll.vars), options.override);
    result := ConfigResult(parsedAll.vars, lastError);
  }

  /** How decrypting the vault ended: the lines of the decrypted text, or the
      error `_parseVault` raised. */
  datatype VaultOutcome = Decrypted(matches: seq<LineMatch>) | DecryptFailed(code: string)

  datatype ConfigOutcome = Completed(result: ConfigResult) | Raised(code: string)

  /** `config`: without a key, or with a key but no vault file, it is
      `configDotenv`; otherwise the vault file is loaded (which adds its own
      entries to the environment), and the decrypted values are merged in. */
  method Config(options: Options, cwd: string, home: string, files: EnvFiles, existing: set<string>,
                vault: VaultOutcome, processEnv: EnvObject)
    returns (outcome: ConfigOutcome)
    modifies processEnv
    ensures DotenvKey(options, old(processEnv.vars)) == "" ==>
      && outcome == Completed(ConfigDotenvResult(options, cwd, home, files))
      && processEnv.vars == Populated(old(processEnv.vars), outcome.result.parsed, options.override)
    ensures DotenvKey(options, old(processEnv.vars)) != "" &&
            !(VaultCandidate(options, cwd, existing).Some? && VaultCandidate(options, cwd, existing).value in existing) ==>
      && outcome == Completed(ConfigDotenvResult(options, cwd, home, files))
      && processEnv.vars == Populated(old(processEnv.vars), outcome.result.parsed, options.override)
    ensures DotenvKey(options, old(processEnv.vars)) != "" && VaultCandidate(options, cwd, existing).Some? &&
            VaultCandidate(options, cwd, existing).value in existing ==>
      var vaultFile := ConfigDotenvResult(Options(OnePath(VaultCandidate(options, cwd, existing).value), "", false),
                                          cwd, home, files);
      var withVaultFile := Populated(old(processEnv.vars), vaultFile.parsed, false);
      match vault
      case DecryptFailed(code) =>
        outcome == Raised(code) && processEnv.vars == withVaultFile
      case Decrypted(matches) =>
        && outcome == Completed(ConfigResult(ParseMatches(matches), None))
        && processEnv.vars == Populated(withVaultFile, ParseMatches(matches), options.override)
  {
    if DotenvKey(options, processEnv.vars) == "" {
      var result := ConfigDotenv(options, cwd, home, files, processEnv);
      return Completed(result);
    }
    var vaultPath := VaultPath(options, cwd, existing);
    if vaultPath.None? {
      var result := ConfigDotenv(options, cwd, home, files, processEnv);
      return Completed(result);
    }
    var _ := ConfigDotenv(Options(OnePath(vaultPath.value), "", false), cwd, home, files, processEnv);
    match vault {
      case DecryptFailed(code) =>
        return Raised(code);
      case Decrypted(matches) =>
        var parsed := Parse(matches);
        var _ := Populate(processEnv, ObjectArgument(parsed), options.override);
        return Completed(ConfigResult(parsed, None));
    }
  }
}
