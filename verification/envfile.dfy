/** The start-up of the video fetch script: the lines of `.env` are read
    with `^([^=:#]+?)[=:](.*)$` into the process environment, then the API
    key and the channel id must both be present and non-blank. */
module EnvFile {
  import opened Wrappers
  import opened Text
  import Sequences

  /** The characters `.` does not match in a JavaScript regular expression
      (ECMA-262 LineTerminator). */
  predicate IsLineTerminator(c: char) {
    c == '\n' || c == '\r' || c == '\U{2028}' || c == '\U{2029}'
  }

  predicate IsSeparator(c: char) {
    c == '=' || c == ':'
  }

  /** A key/value pair read from one line, both trimmed. */
  datatype Entry = Entry(key: string, value: string)

  /** The pattern matches `line` with its `[=:]` at index `p`: a non-empty
      key of characters other than '=', ':' and '#', then the separator, then
      a value with no line terminator up to the end of the line. */
  predicate MatchesAt(line: string, p: nat) {
    && 0 < p < |line|
    && IsSeparator(line[p])
    && (forall i :: 0 <= i < p ==> !IsSeparator(line[i]) && line[i] != '#')
    && NoTerminatorAfter(line, p)
  }

  /** Index of the first '=' or ':' from `k` on. */
  function FirstSeparator(line: string, k: nat): (r: Option<nat>)
    requires k <= |line|
    ensures r.Some? ==> k <= r.value < |line| && IsSeparator(line[r.value])
    ensures r.Some? ==> forall i :: k <= i < r.value ==> !IsSeparator(line[i])
    ensures r.None? ==> forall i :: k <= i < |line| ==> !IsSeparator(line[i])
    decreases |line| - k
  {
    if k == |line| then None
    else if IsSeparator(line[k]) then Some(k)
    else FirstSeparator(line, k + 1)
  }

  /** `line.match(/^([^=:#]+?)[=:](.*)$/)` and the trimming of its groups.
      The key class excludes both separators, so the lazy key can only end
      at the first separator: only that one is tried. */
  function ParseLine(line: string): Option<Entry> {
    match FirstSeparator(line, 0)
    case None => None
    case Some(p) =>
      if p > 0 && '#' !in line[..p] && NoTerminatorAfter(line, p) then
        Some(Entry(Trim(line[..p]), Trim(line[p + 1..])))
      else None
  }

  /** `(.*)$` matches everything after index `p`. */
  predicate NoTerminatorAfter(line: string, p: nat) {
    forall i :: p < i < |line| ==> !IsLineTerminator(line[i])
  }

  /** A line yields an entry exactly when the pattern matches it at some
      separator. */
  lemma ParseLineMatches(line: string)
    ensures ParseLine(line).Some? <==> exists p: nat :: MatchesAt(line, p)
  {
    var r := FirstSeparator(line, 0);
    if r.Some? {
      FirstSeparatorMatch(line, r.value);
      if exists q: nat :: MatchesAt(line, q) {
        var q: nat :| MatchesAt(line, q);
        OnlyFirstSeparator(line, q);
      }
    }
  }

  /** When the pattern matches at `p`, the entry is that match's key and
      value groups, trimmed. */
  lemma ParseLineGroups(line: string, p: nat)
    requires MatchesAt(line, p)
    ensures ParseLine(line) == Some(Entry(Trim(line[..p]), Trim(line[p + 1..])))
  {
    OnlyFirstSeparator(line, p);
    FirstSeparatorMatch(line, p);
  }

  /** A match can only be at the first separator. */
  lemma OnlyFirstSeparator(line: string, q: nat)
    requires MatchesAt(line, q)
    ensures FirstSeparator(line, 0) == Some(q)
  {
  }

  /** At the first separator, the tests `ParseLine` makes are the pattern's. */
  lemma FirstSeparatorMatch(line: string, p: nat)
    requires FirstSeparator(line, 0) == Some(p)
    ensures (p > 0 && '#' !in line[..p] && NoTerminatorAfter(line, p)) <==> MatchesAt(line, p)
  {
    if p > 0 && '#' !in line[..p] {
      forall i | 0 <= i < p ensures line[i] != '#' { assert line[i] == line[..p][i]; }
    }
    if MatchesAt(line, p) {
      forall i | 0 <= i < p ensures line[..p][i] != '#' { assert line[i] != '#'; }
    }
  }

  /** A line ending in a carriage return (a `.env` saved with CRLF line
      breaks) never matches, because `.` stops at the '\r' and `$` does not
      match before it. */
  lemma CarriageReturnLineSkipped(line: string)
    requires |line| > 0 && line[|line| - 1] == '\r'
    ensures ParseLine(line) == None
  {
    match FirstSeparator(line, 0)
    case None =>
    case Some(p) =>
      assert p < |line| - 1 && IsLineTerminator(line[|line| - 1]);
  }

  /** A line whose first character is '#' (a comment) never matches. */
  lemma CommentLineSkipped(line: string)
    requires |line| > 0 && line[0] == '#'
    ensures ParseLine(line) == None
  {
  }

  type Env = map<string, string>

  /** One step of the `forEach`: a matching line sets its key. */
  function ApplyLine(env: Env, line: string): Env {
    match ParseLine(line)
    case None => env
    case Some(e) => env[e.key := e.value]
  }

  /** The `forEach` over the lines, first to last. */
  function ApplyLines(env: Env, lines: seq<string>): Env
    decreases |lines|
  {
    if lines == [] then env
    else ApplyLines(ApplyLine(env, lines[0]), lines[1..])
  }

  /** The value the last entry with `key` assigns, if any: an independent,
      last-to-first definition of "later lines win". */
  function LastValue(parsed: seq<Option<Entry>>, key: string): Option<string>
  {
    if parsed == [] then None
    else
      var last := parsed[|parsed| - 1];
      if last.Some? && last.value.key == key then Some(last.value.value)
      else LastValue(parsed[..|parsed| - 1], key)
  }

  /** The value the last matching line with `key` assigns, if any. */
  function LastAssignment(lines: seq<string>, key: string): Option<string>
  {
    LastValue(Sequences.Map(ParseLine, lines), key)
  }

  /** `LastValue` read from the front: the tail's last assignment, or else
      the first entry's own. */
  lemma {:induction false} LastValueCons(parsed: seq<Option<Entry>>, key: string)
    requires parsed != []
    ensures LastValue(parsed, key)
         == match LastValue(parsed[1..], key)
            case Some(v) => Some(v)
            case None =>
              if parsed[0].Some? && parsed[0].value.key == key then Some(parsed[0].value.value) else None
    decreases |parsed|
  {
    if |parsed| > 1 {
      var init := parsed[..|parsed| - 1];
      assert init[1..] == parsed[1..][..|parsed[1..]| - 1];
      assert init[0] == parsed[0];
      LastValueCons(init, key);
    }
  }

  /** `LastAssignment` read from the front: the tail's last assignment, or
      else the first line's own. */
  lemma LastAssignmentCons(lines: seq<string>, key: string)
    requires lines != []
    ensures LastAssignment(lines, key)
         == match LastAssignment(lines[1..], key)
            case Some(v) => Some(v)
            case None =>
              var first := ParseLine(lines[0]);
              if first.Some? && first.value.key == key then Some(first.value.value) else None
  {
    var parsed := Sequences.Map(ParseLine, lines);
    Sequences.MapCons(ParseLine, lines[0], lines[1..]);
    assert lines == [lines[0]] + lines[1..];
    assert parsed[0] == ParseLine(lines[0]) && parsed[1..] == Sequences.Map(ParseLine, lines[1..]);
    LastValueCons(parsed, key);
  }

  /** Loading the lines into `env`: a key is set exactly when it was already
      set or some line assigns it, and its value is that of the last line
      assigning it, or its earlier value when none does. */
  lemma {:induction false} ApplyLinesLookup(env: Env, lines: seq<string>, key: string)
    ensures key in ApplyLines(env, lines) <==> key in env || LastAssignment(lines, key).Some?
    ensures key in ApplyLines(env, lines) ==>
      ApplyLines(env, lines)[key] == match LastAssignment(lines, key)
                                      case Some(v) => v
                                      case None => env[key]
    decreases |lines|
  {
    if lines != [] {
      ApplyLinesLookup(ApplyLine(env, lines[0]), lines[1..], key);
      LastAssignmentCons(lines, key);
    }
  }

  /** `envContent.split('\n').forEach(...)` applied to the process
      environment `env`. */
  function LoadEnv(env: Env, content: string): Env {
    ApplyLines(env, Split(content, '\n'))
  }

  // ---------------------------------------------------------------------
  // The required-key check.

  const ApiKeyName: string := "VITE_YOUTUBE_API_KEY"
  const ChannelIdName: string := "VITE_YOUTUBE_CHANNEL_ID"

  /** The credentials the harvester is given. */
  datatype Config = Config(apiKey: string, channelId: string)

  datatype ConfigError =
    | EnvFileUnreadable    // readFileSync threw
    | CredentialsMissing   // a required key is unset or blank

  /** `process.env[name]?.trim()`, with `undefined` as `None`. */
  function Setting(env: Env, name: string): Option<string> {
    if name in env then Some(Trim(env[name])) else None
  }

  /** Start-up: `file` is the content of `.env`, `None` when it cannot be
      read; `env` is the environment the process started with. Fails
      exactly when the file is unreadable or either setting is unset or
      blank after trimming; otherwise yields the two trimmed settings. */
  function Startup(file: Option<string>, env: Env): (r: Result<Config, ConfigError>)
    ensures file.None? <==> r == Failure(EnvFileUnreadable)
    ensures file.Some? ==>
      var loaded := LoadEnv(env, file.value);
      (r.Success? <==> Setting(loaded, ApiKeyName).GetOr("") != "" && Setting(loaded, ChannelIdName).GetOr("") != "")
    ensures r.Success? ==> r.value.apiKey != "" && r.value.channelId != ""
  {
    match file
    case None => Failure(EnvFileUnreadable)
    case Some(content) =>
      var loaded := LoadEnv(env, content);
      var apiKey := Setting(loaded, ApiKeyName);
      var channelId := Setting(loaded, ChannelIdName);
      if apiKey.None? || apiKey.value == "" || channelId.None? || channelId.value == "" then
        Failure(CredentialsMissing)
      else Success(Config(apiKey.value, channelId.value))
  }
}
