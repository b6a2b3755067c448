/** Where the API key comes from (`getOrCreateAPIKey` with `readConfig` and
    `writeConfig`): the `NASA_API_KEY` environment variable, else the file
    `Keys.json`, else one line typed on standard input, which is then saved
    to that file. The process environment, the file system and standard
    input are the fields of a `Host`; `log.Fatalf` is a `Fatal` result. */
module Credentials {
  import opened Wrappers

  /** The persisted record, `{"APIKey": "..."}`. */
  datatype Config = Config(apiKey: string)

  /** A file as `readConfig` finds it. */
  datatype FileState =
    | Absent                 // opening it fails because it does not exist
    | Unopenable             // opening it fails for another reason
    | Undecodable            // it opens, but its content is not a Config in JSON
    | Holds(config: Config)  // it opens and decodes

  datatype ReadError = NotExist | OpenFailed | DecodeFailed

  /** `readConfig`'s two results: the decoded record, or the error. */
  datatype ReadResult = Loaded(config: Config) | ReadFailed(error: ReadError)

  /** What reading one line of standard input gives: the line, or an error. */
  datatype StdinLine = Line(text: string) | StdinError

  /** The conditions under which the key lookup stops the process. */
  datatype FatalReason = ConfigUnreadable(error: ReadError) | KeyInputFailed | SaveFailed

  datatype Resolution = Resolved(apiKey: string) | Fatal(reason: FatalReason)

  /** A resolution together with the record it saved to `Keys.json`, if any. */
  datatype Run = Run(result: Resolution, saved: Option<Config>)

  const KeyVariable := "NASA_API_KEY"
  const KeysFile := "Keys.json"

  /** `os.Getenv`: the variable's value, or "" when it is not set. */
  function Getenv(environment: map<string, string>, name: string): string {
    if name in environment then environment[name] else ""
  }

  /** An empty variable and an unset one are read alike. */
  lemma EmptyVariableIsUnset(environment: map<string, string>, name: string)
    ensures Getenv(environment[name := ""], name) == Getenv(environment - {name}, name) == ""
  {
  }

  /** `unicode.IsSpace`: the characters `strings.TrimSpace` removes. */
  predicate IsSpace(c: char) {
    || c == '\t' || c == '\n' || c == '\U{000B}' || c == '\U{000C}' || c == '\r' || c == ' '
    || c == '\U{0085}' || c == '\U{00A0}' || c == '\U{1680}'
    || ('\U{2000}' <= c <= '\U{200A}')
    || c == '\U{2028}' || c == '\U{2029}' || c == '\U{202F}' || c == '\U{205F}' || c == '\U{3000}'
  }

  /** `s` with its leading white space removed. */
  function TrimLeft(s: string): (r: string)
    ensures |r| <= |s| && r == s[|s| - |r|..]
    ensures forall k :: 0 <= k < |s| - |r| ==> IsSpace(s[k])
    ensures r == [] || !IsSpace(r[0])
  {
    if s != [] && IsSpace(s[0]) then TrimLeft(s[1..]) else s
  }

  /** `s` with its trailing white space removed. */
  function TrimRight(s: string): (r: string)
    ensures |r| <= |s| && r == s[..|r|]
    ensures forall k :: |r| <= k < |s| ==> IsSpace(s[k])
    ensures r == [] || !IsSpace(r[|r| - 1])
  {
    if s != [] && IsSpace(s[|s| - 1]) then TrimRight(s[..|s| - 1]) else s
  }

  /** `s` is `r` with only white space before and after it. */
  predicate Surrounds(s: string, i: int, r: string) {
    && 0 <= i && i + |r| <= |s| && s[i..i + |r|] == r
    && (forall k :: 0 <= k < i ==> IsSpace(s[k]))
    && (forall k :: i + |r| <= k < |s| ==> IsSpace(s[k]))
  }

  /** `strings.TrimSpace`: the part of `s` between its leading and its
      trailing white space, which itself neither starts nor ends with any. */
  function TrimSpace(s: string): (r: string)
    ensures r == [] || (!IsSpace(r[0]) && !IsSpace(r[|r| - 1]))
    ensures Surrounds(s, |s| - |TrimLeft(s)|, r)
  {
    TrimmedEnds(s);
    TrimmedSurrounded(s);
    TrimRight(TrimLeft(s))
  }

  /** Trimming the right end keeps the left end trimmed. */
  lemma TrimmedEnds(s: string)
    ensures var r := TrimRight(TrimLeft(s));
      r == [] || (!IsSpace(r[0]) && !IsSpace(r[|r| - 1]))
  {
    var left := TrimLeft(s);
    var r := TrimRight(left);
    assert r != [] ==> r[0] == left[0];
  }

  /** What is trimmed from either end is white space. */
  lemma TrimmedSurrounded(s: string)
    ensures Surrounds(s, |s| - |TrimLeft(s)|, TrimRight(TrimLeft(s)))
  {
    var left := TrimLeft(s);
    SpaceAround(s, |s| - |left|, left, TrimRight(left));
  }

  /** White space before `left` in `s`, and after `r` in `left`, surround `r`. */
  lemma SpaceAround(s: string, i: int, left: string, r: string)
    requires 0 <= i <= |s| && left == s[i..] && |r| <= |left| && r == left[..|r|]
    requires forall k :: 0 <= k < i ==> IsSpace(s[k])
    requires forall k :: |r| <= k < |left| ==> IsSpace(left[k])
    ensures Surrounds(s, i, r)
  {
    forall k | i + |r| <= k < |s| ensures IsSpace(s[k]) {
      assert s[k] == left[k - i];
    }
  }

  /** Trimming twice is trimming once. */
  lemma TrimSpaceIdempotent(s: string)
    ensures TrimSpace(TrimSpace(s)) == TrimSpace(s)
  {
    var r := TrimSpace(s);
    if r != [] {
      assert TrimLeft(r) == r;
      assert TrimRight(r) == r;
    }
  }

  /** `readConfig` on a file in the given state. */
  function ReadConfigOf(f: FileState): ReadResult {
    match f
    case Absent => ReadFailed(NotExist)
    case Unopenable => ReadFailed(OpenFailed)
    case Undecodable => ReadFailed(DecodeFailed)
    case Holds(c) => Loaded(c)
  }

  /** `getOrCreateAPIKey` as a function of its inputs: the value of
      `NASA_API_KEY`, the state of `Keys.json`, whether the file can be
      created, and the line on standard input. */
  function Resolve(envKey: string, file: FileState, canCreate: bool, stdin: StdinLine): (run: Run)
    ensures run.saved.Some? ==> run.result == Resolved(run.saved.value.apiKey)
  {
    if envKey != "" then Run(Resolved(envKey), None)
    else match ReadConfigOf(file)
      case Loaded(c) => Run(Resolved(c.apiKey), None)
      case ReadFailed(NotExist) =>
        (match stdin
         case StdinError => Run(Fatal(KeyInputFailed), None)
         case Line(text) =>
           var key := TrimSpace(text);
           if canCreate then Run(Resolved(key), Some(Config(key))) else Run(Fatal(SaveFailed), None))
      case ReadFailed(error) => Run(Fatal(ConfigUnreadable(error)), None)
  }

  /** A non-empty `NASA_API_KEY` is the key, whatever the file and standard
      input hold, and nothing is written. */
  lemma EnvironmentFirst(envKey: string, file: FileState, canCreate: bool, stdin: StdinLine)
    requires envKey != ""
    ensures Resolve(envKey, file, canCreate, stdin) == Run(Resolved(envKey), None)
  {
  }

  /** Without the variable, a file that decodes gives its key (even an empty
      one), standard input is not read and the file is not rewritten. */
  lemma FileSecond(file: FileState, canCreate: bool, stdin: StdinLine)
    requires file.Holds?
    ensures Resolve("", file, canCreate, stdin) == Run(Resolved(file.config.apiKey), None)
  {
  }

  /** Only a missing file leads to the prompt: any other read failure is
      fatal, reads no input and writes nothing. */
  lemma UnreadableFileIsFatal(file: FileState, canCreate: bool, stdin: StdinLine)
    requires file == Unopenable || file == Undecodable
    ensures Resolve("", file, canCreate, stdin).saved == None
    ensures Resolve("", file, canCreate, stdin).result.Fatal?
    ensures Resolve("", file, canCreate, stdin) == Resolve("", file, !canCreate, StdinError)
  {
  }

  /** First run: the typed line, trimmed, is the key and is what gets saved;
      a failed read of the line or a failed save is fatal and saves nothing. */
  lemma PromptLast(canCreate: bool, stdin: StdinLine)
    ensures var run := Resolve("", Absent, canCreate, stdin);
      && (stdin.StdinError? ==> run == Run(Fatal(KeyInputFailed), None))
      && (stdin.Line? && !canCreate ==> run == Run(Fatal(SaveFailed), None))
      && (stdin.Line? && canCreate ==>
            run.result.Resolved? && run.saved == Some(Config(run.result.apiKey))
            && Surrounds(stdin.text, |stdin.text| - |TrimLeft(stdin.text)|, run.result.apiKey)
            && (run.result.apiKey == [] || (!IsSpace(run.result.apiKey[0]) && !IsSpace(run.result.apiKey[|run.result.apiKey| - 1]))))
  {
  }

  /** After a run that saved a key, the next run finds that key in the file:
      same key, no prompt, no write, whatever standard input then holds. */
  lemma SavedKeyIsReused(file: FileState, canCreate: bool, stdin: StdinLine, canCreate': bool, stdin': StdinLine)
    requires Resolve("", file, canCreate, stdin).saved.Some?
    ensures var first := Resolve("", file, canCreate, stdin);
      Resolve("", Holds(first.saved.value), canCreate', stdin') == Run(first.result, None)
  {
  }

  /** The machine the program runs on, as far as key lookup sees it. */
  class Host {
    const environment: map<string, string>
    const stdin: StdinLine
    /** Names for which `os.Create` fails (read-only files, missing
        directories, no permission). */
    const uncreatable: set<string>
    var files: map<string, FileState>

    constructor (environment: map<string, string>, files: map<string, FileState>,
                 uncreatable: set<string>, stdin: StdinLine)
      ensures this.environment == environment && this.files == files
      ensures this.uncreatable == uncreatable && this.stdin == stdin
    {
      this.environment := environment;
      this.files := files;
      this.uncreatable := uncreatable;
      this.stdin := stdin;
    }

    /** The state of a file; a name with no entry does not exist. */
    function FileAt(name: string): FileState
      reads this
    {
      if name in files then files[name] else Absent
    }

    /** `readConfig(name)`: open, then decode. Only a missing file reports
        `NotExist`; the record comes back exactly when the file decodes. */
    method ReadConfig(name: string) returns (r: ReadResult)
      ensures r.Loaded? <==> FileAt(name).Holds?
      ensures r.Loaded? ==> r.config == FileAt(name).config
      ensures r == ReadFailed(NotExist) <==> FileAt(name) == Absent
      ensures r == ReadConfigOf(FileAt(name))
    {
      if name !in files {
        return ReadFailed(NotExist);
      }
      match files[name]
      case Absent => r := ReadFailed(NotExist);
      case Unopenable => r := ReadFailed(OpenFailed);
      case Undecodable => r := ReadFailed(DecodeFailed);
      case Holds(c) => r := Loaded(c);
    }

    /** `writeConfig(name, config)`: create (or truncate) the file and write
        the record; fails, changing nothing, when the file cannot be
        created. No other file changes. */
    method WriteConfig(name: string, config: Config) returns (failed: bool)
      modifies this
      ensures failed <==> name in uncreatable
      ensures files == if failed then old(files) else old(files)[name := Holds(config)]
    {
      failed := name in uncreatable;
      if !failed {
        files := files[name := Holds(config)];
      }
    }

    /** `getOrCreateAPIKey`: environment, then `Keys.json`, then the prompt,
        whose trimmed answer is saved to `Keys.json`. */
    method GetOrCreateAPIKey() returns (r: Resolution)
      modifies this
      ensures var run := Resolve(Getenv(environment, KeyVariable), old(FileAt(KeysFile)),
                                 KeysFile !in uncreatable, stdin);
        && r == run.result
        && files == if run.saved.Some? then old(files)[KeysFile := Holds(run.saved.value)] else old(files)
    {
      var apiKey := Getenv(environment, KeyVariable);
      if apiKey != "" {
        return Resolved(apiKey);
      }
      var read := ReadConfig(KeysFile);
      match read
      case Loaded(config) =>
        r := Resolved(config.apiKey);
      case ReadFailed(error) =>
        if error == NotExist {
          match stdin
          case StdinError =>
            r := Fatal(KeyInputFailed);
          case Line(text) =>
            var key := TrimSpace(text);
            var failed := WriteConfig(KeysFile, Config(key));
            if failed {
              r := Fatal(SaveFailed);
            } else {
              r := Resolved(key);
            }
        } else {
          r := Fatal(ConfigUnreadable(error));
        }
    }
  }

  /** Writing a record and reading it back gives the same record. */
  method WriteThenRead(host: Host, name: string, config: Config) returns (r: ReadResult)
    requires name !in host.uncreatable
    modifies host
    ensures r == Loaded(config)
  {
    var failed := host.WriteConfig(name, config);
    r := host.ReadConfig(name);
  }
}
