/** config.Load's layering of the process environment, ENV_FILE and .env. */
module Environment {
  import opened Text
  import opened Store

  datatype Assignment = Assignment(key: string, value: string)

  /** One line of an env file: trimmed, comments and lines without "=" skipped,
      cut at the first "=", both parts trimmed. */
  function Parse(line: string): Option<Assignment> {
    var t := Trim(line);
    if t == "" || t[0] == '#' then None
    else
      var i := IndexOf(t, '=');
      if i == |t| then None else Some(Assignment(Trim(t[..i]), Trim(t[i + 1..])))
  }

  const NUL: char := 0 as char

  /** os.Setenv accepts the pair; the key cannot contain "=" after the cut. */
  predicate Settable(a: Assignment) {
    a.key != "" && NUL !in a.key && NUL !in a.value
  }

  type Vars = map<string, string>

  /** os.Getenv. */
  function Getenv(vars: Vars, k: string): string {
    if k in vars then vars[k] else ""
  }

  /** The parsed line gives k a usable value. */
  predicate Gives(p: Option<Assignment>, k: string) {
    p.Some? && p.value.key == k && p.value.value != "" && Settable(p.value)
  }

  /** The position of the first parsed line that gives k a value, or the length. */
  function FirstGiver(parsed: seq<Option<Assignment>>, k: string): (i: nat)
    ensures i <= |parsed|
    ensures i < |parsed| ==> Gives(parsed[i], k)
    ensures forall j :: 0 <= j < i ==> !Gives(parsed[j], k)
  {
    if parsed == [] || Gives(parsed[0], k) then 0 else 1 + FirstGiver(parsed[1..], k)
  }

  /** The value of the first parsed line that gives k one. */
  function FirstMatch(parsed: seq<Option<Assignment>>, k: string): (v: string)
    ensures v == "" <==> FirstGiver(parsed, k) == |parsed|
  {
    var i := FirstGiver(parsed, k);
    if i < |parsed| then parsed[i].value.value else ""
  }

  function ParsedAll(lines: seq<string>): (r: seq<Option<Assignment>>)
    ensures |r| == |lines|
  {
    seq(|lines|, i requires 0 <= i < |lines| => Parse(lines[i]))
  }

  /** What loading one line makes of the environment. */
  function AfterLine(vars: Vars, p: Option<Assignment>): Vars {
    if p.Some? && Settable(p.value) && Getenv(vars, p.value.key) == ""
    then vars[p.value.key := p.value.value] else vars
  }

  /** The process environment wins; otherwise the first line that gives a value. */
  function Layered(vars: Vars, parsed: seq<Option<Assignment>>, k: string): string {
    if Getenv(vars, k) != "" then Getenv(vars, k) else FirstMatch(parsed, k)
  }

  class Process {
    var vars: Vars

    constructor (vars: Vars)
      ensures this.vars == vars
    {
      this.vars := vars;
    }

    /** os.Setenv; an error is ignored by the caller. */
    method Setenv(a: Assignment)
      modifies this
      ensures vars == if a.key != "" && NUL !in a.key && NUL !in a.value
                      then old(vars)[a.key := a.value] else old(vars)
    {
      if Settable(a) {
        vars := vars[a.key := a.value];
      }
    }

    method LoadLine(line: string)
      modifies this
      ensures vars == AfterLine(old(vars), Parse(line))
    {
      var p := Parse(line);
      if p.Some? && Getenv(vars, p.value.key) == "" {
        Setenv(p.value);
      }
    }

    /** loadDotEnv over the lines the scanner delivers. */
    method LoadDotEnv(lines: seq<string>)
      modifies this
      ensures forall k :: Getenv(vars, k) == Layered(old(vars), ParsedAll(lines), k)
    {
      var i := 0;
      ghost var parsed := ParsedAll(lines);
      while i < |lines|
        invariant 0 <= i <= |lines|
        invariant forall k :: Getenv(vars, k) == Layered(old(vars), parsed[..i], k)
      {
        ghost var before := vars;
        LoadLine(lines[i]);
        forall k ensures Getenv(vars, k) == Layered(old(vars), parsed[..i + 1], k) {
          OneMoreLine(old(vars), before, parsed, i, k);
        }
        i := i + 1;
      }
      assert parsed[..i] == parsed;
    }

    /** The loading part of config.Load: ENV_FILE first, then .env if it exists.  The
        process environment wins, then the file it names in ENV_FILE, then .env. */
    method Load(files: map<string, seq<string>>)
      modifies this
      ensures forall k ::
                var path := Getenv(old(vars), "ENV_FILE");
                var secret := if path != "" && path in files then FirstMatch(ParsedAll(files[path]), k) else "";
                var plain := if ".env" in files then FirstMatch(ParsedAll(files[".env"]), k) else "";
                Getenv(vars, k) ==
                if Getenv(old(vars), k) != "" then Getenv(old(vars), k) else if secret != "" then secret else plain
      ensures forall k :: Getenv(vars, k) == Layered(old(vars), ParsedAll(LoadedLines(old(vars), files)), k)
    {
      var p := Getenv(vars, "ENV_FILE");
      if p != "" && p in files {
        LoadDotEnv(files[p]);
      }
      ghost var middle := vars;
      if ".env" in files {
        LoadDotEnv(files[".env"]);
      }
      forall k ensures Getenv(vars, k) == Layered(old(vars), ParsedAll(LoadedLines(old(vars), files)), k) {
        ParsedConcat(FromEnvFile(old(vars), files), FromDotEnv(files));
        FirstMatchConcat(ParsedAll(FromEnvFile(old(vars), files)), ParsedAll(FromDotEnv(files)), k);
        LayeredTwice(old(vars), middle, ParsedAll(FromEnvFile(old(vars), files)), ParsedAll(FromDotEnv(files)), k);
      }
    }
  }

  function FromEnvFile(vars: Vars, files: map<string, seq<string>>): seq<string> {
    var p := Getenv(vars, "ENV_FILE");
    if p != "" && p in files then files[p] else []
  }

  function FromDotEnv(files: map<string, seq<string>>): seq<string> {
    if ".env" in files then files[".env"] else []
  }

  /** All lines that take part, in order of precedence. */
  function LoadedLines(vars: Vars, files: map<string, seq<string>>): seq<string> {
    FromEnvFile(vars, files) + FromDotEnv(files)
  }

  lemma ParsedConcat(a: seq<string>, b: seq<string>)
    ensures ParsedAll(a + b) == ParsedAll(a) + ParsedAll(b)
  {
  }

  lemma FirstMatchConcat(a: seq<Option<Assignment>>, b: seq<Option<Assignment>>, k: string)
    ensures FirstMatch(a + b, k) == if FirstMatch(a, k) != "" then FirstMatch(a, k) else FirstMatch(b, k)
  {
    var i, j := FirstGiver(a, k), FirstGiver(b, k);
    FirstGiverIs(a + b, k, if i < |a| then i else |a| + j);
  }

  lemma FirstGiverIs(parsed: seq<Option<Assignment>>, k: string, i: nat)
    requires i <= |parsed| && (i < |parsed| ==> Gives(parsed[i], k))
    requires forall j :: 0 <= j < i ==> !Gives(parsed[j], k)
    ensures FirstGiver(parsed, k) == i
  {
    var p := FirstGiver(parsed, k);
    assert !(p < i) && !(i < p);
  }

  lemma OneMoreLine(vars: Vars, now: Vars, parsed: seq<Option<Assignment>>, i: nat, k: string)
    requires i < |parsed| && Getenv(now, k) == Layered(vars, parsed[..i], k)
    ensures Getenv(AfterLine(now, parsed[i]), k) == Layered(vars, parsed[..i + 1], k)
  {
    assert parsed[..i + 1] == parsed[..i] + [parsed[i]];
    FirstMatchConcat(parsed[..i], [parsed[i]], k);
    FirstGiverIs([parsed[i]], k, if Gives(parsed[i], k) then 0 else 1);
  }

  lemma LayeredTwice(
    vars: Vars, middle: Vars, a: seq<Option<Assignment>>, b: seq<Option<Assignment>>, k: string)
    requires Getenv(middle, k) == Layered(vars, a, k)
    ensures Layered(middle, b, k) == Layered(vars, a + b, k)
  {
    FirstMatchConcat(a, b, k);
  }

  /** A line is read back as its pair whatever space surrounds key and value, and
      whatever the value contains after the first "=". */
  lemma ParsePadded(l: string, key: string, a: string, b: string, value: string, r: string)
    requires AllSpace(l) && AllSpace(a) && AllSpace(b) && AllSpace(r)
    requires key != "" && '=' !in key && key[0] != '#' && !IsSpace(key[0]) && !IsSpace(key[|key| - 1])
    requires value != "" ==> !IsSpace(value[0]) && !IsSpace(value[|value| - 1])
    ensures Parse(l + (key + a + "=" + b + value) + r) == Some(Assignment(key, value))
  {
    var tail := if value == "" then "" else b + value;
    var core := key + a + "=" + tail;
    var rest := if value == "" then b + r else r;
    assert l + (key + a + "=" + b + value) + r == l + core + rest;
    assert core[|core| - 1] == if value == "" then '=' else value[|value| - 1];
    TrimPadded(l, core, rest);
    TrimTail(key, a);
    if value != "" {
      TrimHead(b, value);
    }
    ParseOfTrimmed(l + (key + a + "=" + b + value) + r, key, a, tail, value);
  }

  lemma TrimTail(s: string, r: string)
    requires AllSpace(r) && s != "" && !IsSpace(s[0]) && !IsSpace(s[|s| - 1])
    ensures Trim(s + r) == s
  {
    var none: string := [];
    assert none + s == s;
    TrimPadded(none, s, r);
  }

  lemma TrimHead(l: string, s: string)
    requires AllSpace(l) && s != "" && !IsSpace(s[0]) && !IsSpace(s[|s| - 1])
    ensures Trim(l + s) == s
  {
    TrimPadded(l, s, []);
    assert l + s + [] == l + s;
  }

  lemma ParseOfTrimmed(line: string, key: string, a: string, tail: string, value: string)
    requires key != "" && '=' !in key && key[0] != '#' && AllSpace(a)
    requires Trim(line) == key + a + "=" + tail && Trim(key + a) == key && Trim(tail) == value
    ensures Parse(line) == Some(Assignment(key, value))
  {
    var t := Trim(line);
    CoreCut(key, a, tail);
    assert t[0] == key[0];
    var i := IndexOf(t, '=');
    assert t[..i] == key + a && t[i + 1..] == tail;
    ParseAt(line, t, i);
  }

  lemma ParseAt(line: string, t: string, i: nat)
    requires t == Trim(line) && t != "" && t[0] != '#' && i == IndexOf(t, '=') && i < |t|
    ensures Parse(line) == Some(Assignment(Trim(t[..i]), Trim(t[i + 1..])))
  {
  }

  lemma CoreCut(key: string, a: string, tail: string)
    requires '=' !in key && AllSpace(a)
    ensures
      var core := key + a + "=" + tail;
      var i := IndexOf(core, '=');
      i == |key + a| < |core| && core[..i] == key + a && core[i + 1..] == tail
  {
    var core := key + a + "=" + tail;
    assert core[..|key + a|] == key + a && core[|key + a|] == '=';
    assert '=' !in key + a;
    IndexOfAt(core, '=', |key + a|);
  }

  /** Comments, blank lines and lines without "=" give nothing. */
  lemma ParseSkips(l: string, rest: string, line: string)
    requires AllSpace(l)
    ensures Parse(l + ("#" + rest)).None?
    ensures Parse(l).None?
    ensures '=' !in line ==> Parse(line).None?
  {
    assert l + ("#" + rest) == l + "#" + rest;
    CommentStart(l, rest);
    TrimPadded(l, [], []);
    assert l + [] + [] == l;
    if '=' !in line {
      TrimKeepsOut(line, '=');
    }
  }

  lemma CommentStart(l: string, rest: string)
    requires AllSpace(l)
    ensures Trim(l + ("#" + rest)) != "" && Trim(l + ("#" + rest))[0] == '#'
  {
    TrimLeftPadded(l, "#" + rest);
    FirstStays("#" + rest);
  }

  /** A plain line key=value is read back as that pair, whatever the value
      contains after the first "=". */
  lemma ParsePlainLine(key: string, value: string)
    requires key != "" && '=' !in key && key[0] != '#' && !IsSpace(key[0]) && !IsSpace(key[|key| - 1])
    requires value != "" ==> !IsSpace(value[0]) && !IsSpace(value[|value| - 1])
    ensures Parse(key + "=" + value) == Some(Assignment(key, value))
  {
    PlainLineEnds(key, value);
    PlainLineCut(key, value);
  }

  lemma PlainLineEnds(key: string, value: string)
    requires key != "" && !IsSpace(key[0]) && !IsSpace(key[|key| - 1])
    requires value != "" ==> !IsSpace(value[0]) && !IsSpace(value[|value| - 1])
    ensures Trim(key + "=" + value) == key + "=" + value && (key + "=" + value)[0] == key[0]
    ensures Trim(key) == key && Trim(value) == value
  {
    var line := key + "=" + value;
    assert line[|line| - 1] == if value == "" then '=' else value[|value| - 1];
    assert line[0] == key[0];
  }

  lemma PlainLineCut(key: string, value: string)
    requires '=' !in key
    ensures
      var line := key + "=" + value;
      IndexOf(line, '=') == |key| < |line| && line[..|key|] == key && line[|key| + 1..] == value
  {
    var line := key + "=" + value;
    assert line[..|key|] == key && line[|key|] == '=';
    assert line[|key| + 1..] == value;
    IndexOfAt(line, '=', |key|);
  }
}
