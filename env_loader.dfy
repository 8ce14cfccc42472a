/**
 * The `.env` loader and the environment lookups used at start-up.
 *
 * A `.env` file is given as its sequence of lines and the process environment as a map
 * from names to values. A line `KEY=VALUE` defines a variable: blank lines and comments
 * are skipped, the key runs from the first non-blank character to the first `=` with
 * trailing blanks removed, and the value is the rest of the line with spaces, tabs and
 * double quotes stripped from both ends. A later definition of a key replaces an earlier one.
 */
module EnvLoader {
  import opened Wrappers

  /** The characters `find_first_not_of(" \t")` skips. */
  const Blank: set<char> := {' ', '\t'}

  /** The characters stripped from both ends of a value: `" \t\""`. */
  const ValueStrip: set<char> := {' ', '\t', '"'}

  predicate AllIn(s: string, chars: set<char>)
  {
    forall i :: 0 <= i < |s| ==> s[i] in chars
  }

  /** `s.find_first_not_of(chars)`, with `None` for `npos`. */
  function FindFirstNotOf(s: string, chars: set<char>): (r: Option<nat>)
    ensures r.Some? ==> r.value < |s| && s[r.value] !in chars
    ensures r.Some? ==> forall j :: 0 <= j < r.value ==> s[j] in chars
    ensures r.None? <==> AllIn(s, chars)
    decreases |s|
  {
    if s == [] then None
    else if s[0] !in chars then Some(0)
    else
      match FindFirstNotOf(s[1..], chars)
      case None => None
      case Some(i) => Some(i + 1)
  }

  /** `s.find_last_not_of(chars)`, with `None` for `npos`. */
  function FindLastNotOf(s: string, chars: set<char>): (r: Option<nat>)
    ensures r.Some? ==> r.value < |s| && s[r.value] !in chars
    ensures r.Some? ==> forall j :: r.value < j < |s| ==> s[j] in chars
    ensures r.None? <==> AllIn(s, chars)
    decreases |s|
  {
    if s == [] then None
    else if s[|s| - 1] !in chars then Some(|s| - 1)
    else FindLastNotOf(s[..|s| - 1], chars)
  }

  /** `s.find(c)`, with `None` for `npos`. */
  function IndexOf(s: string, c: char): (r: Option<nat>)
    ensures r.Some? ==> r.value < |s| && s[r.value] == c
    ensures r.Some? ==> forall j :: 0 <= j < r.value ==> s[j] != c
    ensures r.None? <==> c !in s
    decreases |s|
  {
    if s == [] then None
    else if s[0] == c then Some(0)
    else
      match IndexOf(s[1..], c)
      case None => None
      case Some(i) => Some(i + 1)
  }

  /** The key text with trailing blanks removed; a key that is all blanks is kept. */
  function TrimKey(key: string): (k: string)
    ensures AllIn(key, Blank) ==> k == key
    ensures !AllIn(key, Blank) ==>
              && k != [] && |k| <= |key| && k == key[..|k|]
              && k[|k| - 1] !in Blank && AllIn(key[|k|..], Blank)
  {
    match FindLastNotOf(key, Blank)
    case None => key
    case Some(e) => key[..e + 1]
  }

  /** The value with spaces, tabs and quotes stripped from both ends. A value made only
      of such characters is kept as it is, not emptied. */
  function StripValue(raw: string): (v: string)
    ensures AllIn(raw, ValueStrip) ==> v == raw
    ensures !AllIn(raw, ValueStrip) ==>
              v != [] && v[0] !in ValueStrip && v[|v| - 1] !in ValueStrip
  {
    match FindFirstNotOf(raw, ValueStrip)
    case None => raw
    case Some(vs) =>
      match FindLastNotOf(raw, ValueStrip)
      case None => raw
      case Some(ve) => raw[vs..ve + 1]
  }

  /** A key the loader can produce: non-empty, without `=`, not starting with `#`, and
      with no blank at either end. */
  predicate ValidKey(k: string)
  {
    k != [] && '=' !in k && k[0] != '#' && k[0] !in Blank && k[|k| - 1] !in Blank
  }

  /** The definition one line of a `.env` file makes, if any. */
  function ParseLine(line: string): (r: Option<(string, string)>)
    ensures AllIn(line, Blank) ==> r == None
    ensures '=' !in line ==> r == None
    ensures r.Some? ==> ValidKey(r.value.0)
  {
    if |line| == 0 then None
    else if line[0] == '#' then None
    else
      match FindFirstNotOf(line, Blank)
      case None => None
      case Some(start) =>
        if line[start] == '#' then None
        else
          match IndexOf(line, '=')
          case None => None
          case Some(pos) =>
            var key := TrimKey(line[start..pos]);
            var value := StripValue(line[pos + 1..]);
            if key == [] then None else Some((key, value))
  }

  /** A line whose first non-blank character is `#` is a comment. */
  lemma SkipsComment(lead: string, rest: string)
    requires AllIn(lead, Blank)
    ensures ParseLine(lead + "#" + rest) == None
  {
    var line := lead + "#" + rest;
    assert line[|lead|] == '#';
    assert FindFirstNotOf(line, Blank) == Some(|lead|);
  }

  /** A line whose first non-blank character is `=` has an empty key and defines nothing. */
  lemma EmptyKeySkipped(lead: string, rest: string)
    requires AllIn(lead, Blank)
    ensures ParseLine(lead + "=" + rest) == None
  {
    var line := lead + "=" + rest;
    assert line[|lead|] == '=';
    assert FindFirstNotOf(line, Blank) == Some(|lead|);
    assert IndexOf(line, '=') == Some(|lead|);
    assert line[|lead|..|lead|] == [];
  }

  /** A line `lead KEY gap = raw` defines KEY with the stripped `raw`; `raw` may itself
      hold `=`. */
  lemma ParseLineSplits(lead: string, key: string, gap: string, raw: string)
    requires AllIn(lead, Blank) && AllIn(gap, Blank) && ValidKey(key)
    ensures ParseLine(lead + key + gap + "=" + raw) == Some((key, StripValue(raw)))
  {
    var line := lead + key + gap + "=" + raw;
    var start, pos := |lead|, |lead| + |key| + |gap|;
    assert line[start] == key[0];
    assert FindFirstNotOf(line, Blank) == Some(start);
    assert line[pos] == '=';
    forall j | 0 <= j < pos ensures line[j] != '=' {
      if j < start { assert line[j] == lead[j]; }
      else if j < start + |key| { assert line[j] == key[j - start]; }
      else { assert line[j] == gap[j - start - |key|]; }
    }
    assert IndexOf(line, '=') == Some(pos);
    assert line[start..pos] == key + gap;
    TrimKeyOf(key, gap);
    assert line[pos + 1..] == raw;
  }

  lemma TrimKeyOf(key: string, gap: string)
    requires key != [] && key[|key| - 1] !in Blank && AllIn(gap, Blank)
    ensures TrimKey(key + gap) == key
  {
    var s := key + gap;
    assert s[|key| - 1] == key[|key| - 1];
    assert FindLastNotOf(s, Blank) == Some(|key| - 1);
    assert s[..|key|] == key;
  }

  /** Stripping takes off exactly the quote and blank padding around a value. */
  lemma StripValueOf(open: string, value: string, close: string)
    requires AllIn(open, ValueStrip) && AllIn(close, ValueStrip)
    requires value != [] && value[0] !in ValueStrip && value[|value| - 1] !in ValueStrip
    ensures StripValue(open + value + close) == value
  {
    var raw := open + value + close;
    var vs, ve := |open|, |open| + |value| - 1;
    assert raw[vs] == value[0] && raw[ve] == value[|value| - 1];
    assert FindFirstNotOf(raw, ValueStrip) == Some(vs);
    forall j | ve < j < |raw| ensures raw[j] in ValueStrip {
      assert raw[j] == close[j - ve - 1];
    }
    assert FindLastNotOf(raw, ValueStrip) == Some(ve);
    assert raw[vs..ve + 1] == value;
  }

  /** Every definition has the shape `ParseLineSplits` describes. */
  lemma ParseLineShape(line: string)
    requires ParseLine(line).Some?
    ensures exists lead, gap, raw ::
              && AllIn(lead, Blank) && AllIn(gap, Blank)
              && line == lead + ParseLine(line).value.0 + gap + "=" + raw
              && ParseLine(line).value.1 == StripValue(raw)
  {
    var start := FindFirstNotOf(line, Blank).value;
    var pos := IndexOf(line, '=').value;
    var text := line[start..pos];
    var key := ParseLine(line).value.0;
    assert key == TrimKey(text);
    assert text[0] == line[start];
    assert AllIn(line[..start], Blank);
    SplitKey(line, start, pos, |key|);
  }

  /** The layout of a line around its key: blanks, the key, blanks, `=`, the raw value. */
  lemma SplitKey(line: string, start: nat, pos: nat, k: nat)
    requires start <= pos < |line| && line[pos] == '=' && start + k <= pos
    ensures line == line[..start] + line[start..pos][..k] + line[start..pos][k..]
                    + "=" + line[pos + 1..]
  {
    var text := line[start..pos];
    assert text == text[..k] + text[k..];
    SplitAround(line, start, pos);
  }

  lemma SplitAround(s: string, i: nat, j: nat)
    requires i <= j < |s|
    ensures s == s[..i] + s[i..j] + [s[j]] + s[j + 1..]
  {
  }

  /** One definition a line may make: a key and its value. */
  type Definition = Option<(string, string)>

  predicate Defines(d: Definition, k: string)
  {
    d.Some? && d.value.0 == k
  }

  /** The definitions the lines make, one per line. */
  function Definitions(lines: seq<string>): (defs: seq<Definition>)
    ensures |defs| == |lines|
    ensures forall i :: 0 <= i < |lines| ==> defs[i] == ParseLine(lines[i])
  {
    seq(|lines|, i requires 0 <= i < |lines| => ParseLine(lines[i]))
  }

  /** The variables after one more definition. */
  function Extend(env: map<string, string>, d: Definition): map<string, string>
  {
    match d
    case None => env
    case Some(kv) => env[kv.0 := kv.1]
  }

  /** The variables a run of definitions leaves behind, read in order. */
  function Apply(defs: seq<Definition>): map<string, string>
    decreases |defs|
  {
    if defs == [] then map[] else Extend(Apply(defs[..|defs| - 1]), defs[|defs| - 1])
  }

  /** The variables a `.env` file with these lines defines. */
  function Load(lines: seq<string>): map<string, string>
  {
    Apply(Definitions(lines))
  }

  /** The body of `loadEnvFile`'s loop for one line: the trimmed key and value, with an
      empty key for a line that defines nothing. */
  method ParseEntry(line: string) returns (key: string, value: string)
    ensures ParseLine(line) == if key == [] then None else Some((key, value))
  {
    key, value := "", "";
    if |line| == 0 { return; }
    if line[0] == '#' { return; }

    var start := FindFirstNotOf(line, Blank);
    if start.None? { return; }
    if line[start.value] == '#' { return; }

    var pos := IndexOf(line, '=');
    if pos.None? { return; }  // a line without '=' is reported and skipped

    key, value := TrimEntry(line[start.value..pos.value], line[pos.value + 1..]);
  }

  /** The trimming half of `loadEnvFile`'s loop body: blanks off the end of the key,
      blanks and quotes off both ends of the value. */
  method TrimEntry(text: string, raw: string) returns (key: string, value: string)
    ensures key == TrimKey(text) && value == StripValue(raw)
  {
    key := text;
    var keyEnd := FindLastNotOf(key, Blank);
    if keyEnd.Some? {
      key := key[..keyEnd.value + 1];
    }

    value := raw;
    var valueStart := FindFirstNotOf(value, ValueStrip);
    var valueEnd := FindLastNotOf(value, ValueStrip);
    if valueStart.Some? {
      value := value[valueStart.value..valueEnd.value + 1];
    }
  }

  /** `loadEnvFile`: `file` holds the lines of the file, or `None` when it cannot be
      opened, in which case nothing is loaded. */
  method LoadEnvFile(file: Option<seq<string>>) returns (env: map<string, string>)
    ensures file.None? ==> env == map[]
    ensures file.Some? ==> env == Load(file.value)
  {
    if file.None? {
      return map[];  // reported, and the system environment is used as it is
    }
    var lines := file.value;
    ghost var defs := Definitions(lines);
    env := map[];
    var i := 0;
    while i < |lines|
      invariant 0 <= i <= |lines|
      invariant env == Apply(defs[..i])
    {
      var key, value := ParseEntry(lines[i]);
      if key != [] {
        env := env[key := value];
      }
      i := i + 1;
      assert defs[..i][..i - 1] == defs[..i - 1];
    }
    assert defs[..|lines|] == defs;
  }

  /** A key is set exactly when some definition names it. */
  lemma {:induction false} ApplyKeys(defs: seq<Definition>, k: string)
    ensures k in Apply(defs) <==> exists i :: 0 <= i < |defs| && Defines(defs[i], k)
    decreases |defs|
  {
    if defs != [] {
      var n := |defs| - 1;
      var prefix := defs[..n];
      ApplyKeys(prefix, k);
      if exists i :: 0 <= i < n && Defines(prefix[i], k) {
        var i :| 0 <= i < n && Defines(prefix[i], k);
        assert defs[i] == prefix[i];
      }
      if exists i :: 0 <= i < |defs| && Defines(defs[i], k) {
        var i :| 0 <= i < |defs| && Defines(defs[i], k);
        if i < n { assert Defines(prefix[i], k); }
      }
    }
  }

  /** The value set for a key is the one of its last definition. */
  lemma {:induction false} ApplyLastWins(defs: seq<Definition>, i: int)
    requires 0 <= i < |defs| && defs[i].Some?
    requires forall j :: i < j < |defs| ==> !Defines(defs[j], defs[i].value.0)
    ensures defs[i].value.0 in Apply(defs) && Apply(defs)[defs[i].value.0] == defs[i].value.1
    decreases |defs|
  {
    var n := |defs| - 1;
    if i < n {
      var prefix := defs[..n];
      assert prefix[i] == defs[i];
      forall j | i < j < |prefix| ensures !Defines(prefix[j], prefix[i].value.0) {
        assert prefix[j] == defs[j];
      }
      ApplyLastWins(prefix, i);
      assert !Defines(defs[n], defs[i].value.0);
    }
  }

  /** A key is loaded exactly when some line defines it. */
  lemma LoadKeys(lines: seq<string>, k: string)
    ensures k in Load(lines) <==> exists i :: 0 <= i < |lines| && Defines(ParseLine(lines[i]), k)
  {
    var defs := Definitions(lines);
    ApplyKeys(defs, k);
    assert forall i :: 0 <= i < |lines| ==> defs[i] == ParseLine(lines[i]);
  }

  /** The value loaded for a key is the one on the last line that defines it. */
  lemma LoadLastWins(lines: seq<string>, i: int)
    requires 0 <= i < |lines| && ParseLine(lines[i]).Some?
    requires forall j :: i < j < |lines| ==>
               !Defines(ParseLine(lines[j]), ParseLine(lines[i]).value.0)
    ensures ParseLine(lines[i]).value.0 in Load(lines)
    ensures Load(lines)[ParseLine(lines[i]).value.0] == ParseLine(lines[i]).value.1
  {
    ApplyLastWins(Definitions(lines), i);
  }

  /** Every loaded name is a valid key; in particular it is non-empty and has no `=`,
      so `setenv` accepts it. */
  lemma LoadedKeysValid(lines: seq<string>, k: string)
    requires k in Load(lines)
    ensures ValidKey(k)
  {
    LoadKeys(lines, k);
    var i :| 0 <= i < |lines| && Defines(ParseLine(lines[i]), k);
  }

  /** `setEnvironmentVariables`: every loaded variable is set, overwriting. */
  function SetEnvironmentVariables(env: map<string, string>, vars: map<string, string>)
    : (r: map<string, string>)
    ensures r.Keys == env.Keys + vars.Keys
    ensures forall k :: k in vars ==> r[k] == vars[k]
    ensures forall k :: k in env && k !in vars ==> r[k] == env[k]
  {
    env + vars
  }

  /** `getEnvVariable`: the value of a set variable, else the default. */
  function GetEnvVariable(env: map<string, string>, key: string, default: string): (r: string)
    ensures key in env ==> r == env[key]
    ensures key !in env ==> r == default
  {
    if key in env then env[key] else default
  }

  /** `validateRequiredEnvVariables`: every missing name is reported, and the answer is
      whether none was missing. */
  method ValidateRequiredEnvVariables(env: map<string, string>, required: seq<string>)
    returns (allPresent: bool)
    ensures allPresent <==> forall i :: 0 <= i < |required| ==> required[i] in env
  {
    allPresent := true;
    var i := 0;
    while i < |required|
      invariant 0 <= i <= |required|
      invariant allPresent <==> forall j :: 0 <= j < i ==> required[j] in env
    {
      if required[i] !in env {
        allPresent := false;
      }
      i := i + 1;
    }
  }

  /** After loading a file into the environment, a variable the file defines reads as
      the value on its last defining line. */
  lemma GetAfterLoad(env: map<string, string>, lines: seq<string>, i: int, default: string)
    requires 0 <= i < |lines| && ParseLine(lines[i]).Some?
    requires forall j :: i < j < |lines| ==>
               !Defines(ParseLine(lines[j]), ParseLine(lines[i]).value.0)
    ensures GetEnvVariable(SetEnvironmentVariables(env, Load(lines)),
                           ParseLine(lines[i]).value.0, default) == ParseLine(lines[i]).value.1
  {
    LoadLastWins(lines, i);
  }

  /** A variable the file does not define reads as it did before loading. */
  lemma GetAfterLoadUndefined(env: map<string, string>, lines: seq<string>, k: string,
                              default: string)
    requires forall i :: 0 <= i < |lines| ==> !Defines(ParseLine(lines[i]), k)
    ensures GetEnvVariable(SetEnvironmentVariables(env, Load(lines)), k, default) ==
            GetEnvVariable(env, k, default)
  {
    LoadKeys(lines, k);
  }
}
