/**
  The env feeder: reads a file of `KEY=VALUE` lines into a map, turns every
  key into its dotted lower-case form and lets a non-empty environment
  variable of the same (raw) name override the value from the file.
 */
module Feeder {
  import opened Text

  datatype Option<T> = None | Some(value: T)

  /** A Go `(value, error)` pair: either a value or the error's message. */
  datatype Result<T> = Ok(value: T) | Err(msg: string)

  /** What `parse` extracts from one line; blank and comment lines give the
      empty entry. */
  datatype Entry = Entry(key: string, value: string)

  const InvalidLine := "Invalid line: "

  // ---------------------------------------------------------------- parse

  /** A trimmed line that carries no assignment: empty, or a `#` comment. */
  predicate IsBlank(ln: string) {
    |ln| == 0 || ln[0] == '#'
  }

  /** parse: trims the line; a blank or comment line yields the empty entry;
      a line without `=` is an error naming the trimmed line; otherwise the
      line is split at its first `=` and both halves are trimmed. */
  function Parse(line: string): (r: Result<Entry>)
    ensures IsBlank(TrimSpace(line)) ==> r == Ok(Entry("", ""))
    ensures r.Err? <==> !IsBlank(TrimSpace(line)) && '=' !in TrimSpace(line)
    ensures r.Err? ==> r.msg == InvalidLine + TrimSpace(line)
    ensures r.Ok? ==> '=' !in r.value.key
    ensures r.Ok? ==> Trimmed(r.value.key) && Trimmed(r.value.value)
  {
    var ln := TrimSpace(line);
    if |ln| == 0 then Ok(Entry("", ""))
    else if ln[0] == '#' then Ok(Entry("", ""))
    else
      var s := Index(ln, '=');
      IndexFirst(ln, '=');
      if s == -1 then Err(InvalidLine + ln)
      else
        var key := TrimSpace(ln[..s]);
        assert '=' !in key by {
          if '=' in key { TrimSpaceChars(ln[..s], '='); }
        }
        Ok(Entry(key, TrimSpace(ln[s + 1..])))
  }

  /** A line with an `=` splits at the FIRST `=`: the key is the trimmed text
      before it and the value the trimmed text after it, so later `=` stay in
      the value. */
  lemma ParseSplitsAtFirstEquals(line: string, s: nat)
    requires var ln := TrimSpace(line);
             !IsBlank(ln) && s < |ln| && ln[s] == '=' && '=' !in ln[..s]
    ensures var ln := TrimSpace(line);
            Parse(line) == Ok(Entry(TrimSpace(ln[..s]), TrimSpace(ln[s + 1..])))
  {
    IndexAt(TrimSpace(line), '=', s);
  }

  /** Round trip: a line written as `key=value` parses back to that entry,
      for any trimmed key that holds no `=` and does not start a comment, and
      any trimmed value (which may hold `=`). The key may be empty: `=value`
      parses to the empty key. */
  lemma ParseAssignment(key: string, value: string)
    requires (key == [] || key[0] != '#') && '=' !in key && Trimmed(key)
    requires Trimmed(value)
    ensures Parse(key + "=" + value) == Ok(Entry(key, value))
  {
    var line := key + "=" + value;
    assert line[..|key|] == key && line[|key|] == '=' && line[|key| + 1..] == value;
    assert Trimmed(line);
    TrimSpaceOfTrimmed(line);
    TrimSpaceOfTrimmed(key);
    TrimSpaceOfTrimmed(value);
    ParseSplitsAtFirstEquals(line, |key|);
  }

  // ----------------------------------------------------------------- read

  /** parse applied to every line, in order. */
  function ParseAll(lines: seq<string>): seq<Result<Entry>>
  {
    seq(|lines|, i requires 0 <= i < |lines| => Parse(lines[i]))
  }

  /** The parse result `p` stores `key`: it is an entry with that non-empty key. */
  predicate Stores(p: Result<Entry>, key: string) {
    p.Ok? && p.value.key == key && key != ""
  }

  /** The state of read's `items` map after the given parse results, or the
      first error among them. Defined on the last result so that it follows
      the loop. */
  function Accumulate(ps: seq<Result<Entry>>): Result<map<string, string>>
  {
    if ps == [] then Ok(map[])
    else
      match Accumulate(ps[..|ps| - 1])
      case Err(msg) => Err(msg)
      case Ok(items) =>
        match ps[|ps| - 1]
        case Err(msg) => Err(msg)
        case Ok(e) => Ok(if e.key != "" then items[e.key := e.value] else items)
  }

  /** The outcome of read: the map built from the scanned lines, unless a line
      is malformed or the scanner stopped on an error; a malformed line is
      reported first. */
  function ReadOutcome(lines: seq<string>, scanErr: Option<string>): Result<map<string, string>>
  {
    match Accumulate(ParseAll(lines))
    case Err(msg) => Err(msg)
    case Ok(items) =>
      if scanErr.Some? then Err(scanErr.value) else Ok(items)
  }

  /** Once a prefix of the results has failed, later results change nothing. */
  lemma {:induction false} AccumulateErrSticks(ps: seq<Result<Entry>>, n: nat)
    requires n <= |ps| && Accumulate(ps[..n]).Err?
    ensures Accumulate(ps) == Accumulate(ps[..n])
  {
    if n < |ps| {
      var init := ps[..|ps| - 1];
      assert init[..n] == ps[..n];
      AccumulateErrSticks(init, n);
    } else {
      assert ps[..n] == ps;
    }
  }

  /** One more result extends an accumulation that has not failed. */
  lemma AccumulateStep(ps: seq<Result<Entry>>, i: nat, items: map<string, string>)
    requires i < |ps| && Accumulate(ps[..i]) == Ok(items)
    ensures ps[i].Err? ==> Accumulate(ps[..i + 1]) == Err(ps[i].msg)
    ensures ps[i].Ok? ==>
              Accumulate(ps[..i + 1]) == Ok(if ps[i].value.key != "" then items[ps[i].value.key := ps[i].value.value] else items)
  {
    assert ps[..i + 1][..i] == ps[..i];
  }

  /** read: parses the lines in order into a fresh map, stopping at the first
      malformed line; then reports the scanner's error, if any. */
  method Read(lines: seq<string>, scanErr: Option<string>) returns (r: Result<map<string, string>>)
    ensures r == ReadOutcome(lines, scanErr)
  {
    ghost var ps := ParseAll(lines);
    var items: map<string, string> := map[];
    var i := 0;
    while i < |lines|
      invariant 0 <= i <= |lines|
      invariant Accumulate(ps[..i]) == Ok(items)
    {
      AccumulateStep(ps, i, items);
      var p := Parse(lines[i]);
      if p.Err? {
        AccumulateErrSticks(ps, i + 1);
        return Err(p.msg);
      }
      var e := p.value;
      if e.key != "" {
        items := items[e.key := e.value];
      }
      i := i + 1;
    }
    assert ps[..i] == ps;
    if scanErr.Some? {
      return Err(scanErr.value);
    }
    return Ok(items);
  }

  /** Accumulating fails exactly when some result is an error. */
  lemma {:induction false} AccumulateFails(ps: seq<Result<Entry>>)
    ensures Accumulate(ps).Err? <==> exists i :: 0 <= i < |ps| && ps[i].Err?
  {
    if ps != [] {
      var last := |ps| - 1;
      var init := ps[..last];
      AccumulateFails(init);
      if Accumulate(init).Err? {
        var i :| 0 <= i < |init| && init[i].Err?;
        assert ps[i].Err?;
      } else if ps[last].Err? {
      } else {
        forall i | 0 <= i < |ps|
          ensures ps[i].Ok?
        {
          if i < last {
            assert init[i] == ps[i];
          }
        }
      }
    }
  }

  /** `i` is the first error among the results. */
  predicate FirstError(ps: seq<Result<Entry>>, i: int) {
    0 <= i < |ps| && ps[i].Err? && forall j :: 0 <= j < i ==> ps[j].Ok?
  }

  /** A failing accumulation reports the first error. */
  lemma {:induction false} AccumulateReportsFirstError(ps: seq<Result<Entry>>)
    requires Accumulate(ps).Err?
    ensures exists i :: FirstError(ps, i) && ps[i].msg == Accumulate(ps).msg
  {
    var last := |ps| - 1;
    var init := ps[..last];
    if Accumulate(init).Err? {
      AccumulateReportsFirstError(init);
      var i :| FirstError(init, i) && init[i].msg == Accumulate(init).msg;
      assert forall j :: 0 <= j <= i ==> init[j] == ps[j];
      assert FirstError(ps, i);
    } else {
      AccumulateFails(init);
      assert forall j :: 0 <= j < last ==> init[j] == ps[j];
      assert FirstError(ps, last);
    }
  }

  /** A key is in the accumulated map exactly when some result stores it; in
      particular the empty key is never in it. */
  lemma {:induction false} AccumulateKeys(ps: seq<Result<Entry>>, key: string)
    requires Accumulate(ps).Ok?
    ensures key in Accumulate(ps).value <==> exists i :: 0 <= i < |ps| && Stores(ps[i], key)
    ensures "" !in Accumulate(ps).value
  {
    if ps != [] {
      var last := |ps| - 1;
      var init := ps[..last];
      AccumulateKeys(init, key);
      if key in Accumulate(init).value {
        var i :| 0 <= i < |init| && Stores(init[i], key);
        assert Stores(ps[i], key);
      } else if key in Accumulate(ps).value {
        assert Stores(ps[last], key);
      } else {
        forall i | 0 <= i < |ps|
          ensures !Stores(ps[i], key)
        {
          if i < last {
            assert init[i] == ps[i];
          }
        }
      }
    }
  }

  /** A later entry for the same key overwrites an earlier one: the stored
      value is that of the last result storing the key. */
  lemma {:induction false} AccumulateLastWins(ps: seq<Result<Entry>>, i: nat, key: string)
    requires Accumulate(ps).Ok?
    requires i < |ps| && Stores(ps[i], key)
    requires forall j :: i < j < |ps| ==> !Stores(ps[j], key)
    ensures key in Accumulate(ps).value
    ensures Accumulate(ps).value[key] == ps[i].value.value
  {
    var init := ps[..|ps| - 1];
    if i < |ps| - 1 {
      assert forall j :: i < j < |init| ==> init[j] == ps[j];
      AccumulateLastWins(init, i, key);
      assert !Stores(ps[|ps| - 1], key);
    }
  }

  /** `line` stores `key`: it parses to the non-empty key `key`. */
  predicate Defines(line: string, key: string) {
    Stores(Parse(line), key)
  }

  /** read fails exactly when some line is malformed or the scanner failed;
      a malformed line wins, and the error names the first one, trimmed. */
  lemma ReadFails(lines: seq<string>, scanErr: Option<string>)
    ensures ReadOutcome(lines, scanErr).Err? <==>
              (exists i :: 0 <= i < |lines| && Parse(lines[i]).Err?) || scanErr.Some?
    ensures (exists i :: 0 <= i < |lines| && Parse(lines[i]).Err?) ==>
              exists i :: FirstError(ParseAll(lines), i) &&
                          ReadOutcome(lines, scanErr) == Err(InvalidLine + TrimSpace(lines[i]))
  {
    var ps := ParseAll(lines);
    AccumulateFails(ps);
    if exists i :: 0 <= i < |lines| && Parse(lines[i]).Err? {
      var i :| 0 <= i < |lines| && Parse(lines[i]).Err?;
      assert ps[i].Err?;
      AccumulateReportsFirstError(ps);
    } else {
      assert forall i :: 0 <= i < |ps| ==> ps[i].Ok?;
    }
  }

  /** A key is in read's map exactly when some line defines it; the empty key
      (blank lines, comments and `=value` lines) never is. */
  lemma ReadKeys(lines: seq<string>, scanErr: Option<string>, key: string)
    requires ReadOutcome(lines, scanErr).Ok?
    ensures key in ReadOutcome(lines, scanErr).value <==> exists i :: 0 <= i < |lines| && Defines(lines[i], key)
    ensures "" !in ReadOutcome(lines, scanErr).value
  {
    var ps := ParseAll(lines);
    AccumulateKeys(ps, key);
    if exists i :: 0 <= i < |lines| && Defines(lines[i], key) {
      var i :| 0 <= i < |lines| && Defines(lines[i], key);
      assert Stores(ps[i], key);
    }
  }

  /** For a duplicated key, read keeps the value of the last line defining it. */
  lemma ReadLastWins(lines: seq<string>, scanErr: Option<string>, i: nat, key: string)
    requires ReadOutcome(lines, scanErr).Ok?
    requires i < |lines| && Defines(lines[i], key)
    requires forall j :: i < j < |lines| ==> !Defines(lines[j], key)
    ensures key in ReadOutcome(lines, scanErr).value
    ensures ReadOutcome(lines, scanErr).value[key] == Parse(lines[i]).value.value
  {
    var ps := ParseAll(lines);
    AccumulateLastWins(ps, i, key);
  }

  // ----------------------------------------------------------------- load

  /** What resolving, opening and scanning a path yields: the lines scanned
      before the scanner stopped together with its error, if any; or the error
      of filepath.Abs or os.Open. */
  datatype FileOutcome = Opened(lines: seq<string>, scanErr: Option<string>) | OpenFailed(err: string)

  /** The file system, as seen by load. */
  type FileSystem = string -> FileOutcome

  /** The outcome of load on a file outcome. */
  function Loaded(f: FileOutcome): Result<map<string, string>>
  {
    match f
    case OpenFailed(err) => Err(err)
    case Opened(lines, scanErr) => ReadOutcome(lines, scanErr)
  }

  /** load: an open error is returned as is; otherwise the file is read. */
  method Load(fs: FileSystem, filename: string) returns (r: Result<map<string, string>>)
    ensures r == Loaded(fs(filename))
  {
    match fs(filename)
    case OpenFailed(err) =>
      return Err(err);
    case Opened(lines, scanErr) =>
      r := Read(lines, scanErr);
  }

  // ---------------------------------------------------------- standardize

  /** standardize: lower-cases the key and turns every `_` into `.`
      (`APP_NAME` becomes `app.name`). */
  function Standardize(k: string): (r: string)
    ensures |r| == |k|
    ensures forall i :: 0 <= i < |k| ==> r[i] == if k[i] == '_' then '.' else LowerChar(k[i])
    ensures forall i :: 0 <= i < |r| ==> r[i] != '_' && !IsUpper(r[i])
  {
    ReplaceAll(ToLower(k), '_', '.')
  }

  /** A standardized key is its own standard form. */
  lemma StandardizeIdempotent(k: string)
    ensures Standardize(Standardize(k)) == Standardize(k)
  {
    var s := Standardize(k);
    assert forall i :: 0 <= i < |s| ==> Standardize(s)[i] == s[i];
  }

  /** Standardize leaves a key unchanged exactly when it holds no `_` and no
      upper-case letter. */
  lemma StandardizeFixedPoints(k: string)
    ensures Standardize(k) == k <==> forall i :: 0 <= i < |k| ==> k[i] != '_' && !IsUpper(k[i])
  {
    if forall i :: 0 <= i < |k| ==> k[i] != '_' && !IsUpper(k[i]) {
      assert forall i :: 0 <= i < |k| ==> Standardize(k)[i] == k[i];
    }
  }

  // ------------------------------------------------------------------ get

  /** The process environment, by variable name. */
  type Environ = map<string, string>

  /** os.Getenv: the variable's value, or "" when it is unset. */
  function Getenv(environ: Environ, key: string): (r: string)
    ensures key in environ ==> r == environ[key]
    ensures key !in environ ==> r == ""
    ensures r != "" ==> key in environ && environ[key] == r
  {
    if key in environ then environ[key] else ""
  }

  /** get: the environment's value when it is set and non-empty, the fallback
      otherwise; a variable set to "" counts as unset. */
  function Get(environ: Environ, key: string, fallback: string): (r: string)
    ensures key in environ && environ[key] != "" ==> r == environ[key]
    ensures key !in environ || environ[key] == "" ==> r == fallback
    ensures r == "" ==> fallback == ""
  {
    var v := Getenv(environ, key);
    if v != "" then v else fallback
  }

  // ----------------------------------------------------------------- Feed

  /** Go's env feeder value: the path of the env file. */
  datatype Env = Env(path: string)

  /** No other loaded key has the same standard form as `k`. */
  ghost predicate Unambiguous(values: map<string, string>, k: string) {
    forall k' :: k' in values && Standardize(k') == Standardize(k) ==> k' == k
  }

  /** `m` is a possible outcome of Feed's loop over `values`: its keys are the
      standard forms of the loaded keys, and each entry holds the resolved
      value of some loaded key with that standard form (which one, when
      several collide, depends on Go's map order). */
  ghost predicate Resolved(values: map<string, string>, environ: Environ, m: map<string, string>) {
    && m.Keys == (set k | k in values :: Standardize(k))
    && forall sk :: sk in m ==>
         exists k :: k in values && Standardize(k) == sk && m[sk] == Get(environ, k, values[k])
  }

  /** Feed: loads the file and maps every loaded (k, v) to
      standardize(k) -> get(k, v); a load error is returned unchanged. */
  method Feed(e: Env, fs: FileSystem, environ: Environ) returns (r: Result<map<string, string>>)
    ensures Loaded(fs(e.path)).Err? ==> r == Err(Loaded(fs(e.path)).msg)
    ensures Loaded(fs(e.path)).Ok? ==> r.Ok? && Resolved(Loaded(fs(e.path)).value, environ, r.value)
  {
    var loaded := Load(fs, e.path);
    if loaded.Err? {
      return Err(loaded.msg);
    }
    var values := loaded.value;
    var m: map<string, string> := map[];
    var todo := values.Keys;
    while todo != {}
      invariant todo <= values.Keys
      invariant m.Keys == (set k | k in values && k !in todo :: Standardize(k))
      invariant forall sk :: sk in m ==>
                  exists k :: k in values && k !in todo && Standardize(k) == sk && m[sk] == Get(environ, k, values[k])
      decreases todo
    {
      var k :| k in todo;
      m := m[Standardize(k) := Get(environ, k, values[k])];
      todo := todo - {k};
    }
    return Ok(m);
  }

  /** Without a collision, the entry for `k` is exactly its resolved value. */
  lemma ResolvedUnambiguous(values: map<string, string>, environ: Environ, m: map<string, string>, k: string)
    requires Resolved(values, environ, m)
    requires k in values && Unambiguous(values, k)
    ensures Standardize(k) in m && m[Standardize(k)] == Get(environ, k, values[k])
  {
    assert Standardize(k) in m;
    var k' :| k' in values && Standardize(k') == Standardize(k) && m[Standardize(k)] == Get(environ, k', values[k']);
  }

  /** Without collisions Feed's outcome is fully determined: Go's map order
      then makes no difference. */
  lemma ResolvedDeterministic(values: map<string, string>, environ: Environ, m1: map<string, string>, m2: map<string, string>)
    requires forall k :: k in values ==> Unambiguous(values, k)
    requires Resolved(values, environ, m1) && Resolved(values, environ, m2)
    ensures m1 == m2
  {
    forall sk | sk in m1
      ensures m1[sk] == m2[sk]
    {
      var k :| k in values && Standardize(k) == sk && m1[sk] == Get(environ, k, values[k]);
      ResolvedUnambiguous(values, environ, m2, k);
    }
  }

  /** Standard forms of a set of keys, none of which collide, are as many as
      the keys. */
  lemma {:induction false} StandardFormsCount(ks: set<string>)
    requires forall k, k' :: k in ks && k' in ks && Standardize(k) == Standardize(k') ==> k == k'
    ensures |set k | k in ks :: Standardize(k)| == |ks|
  {
    if ks != {} {
      var x :| x in ks;
      var rest := ks - {x};
      StandardFormsCount(rest);
      var img := set k | k in ks :: Standardize(k);
      var imgRest := set k | k in rest :: Standardize(k);
      assert img == imgRest + {Standardize(x)};
      assert Standardize(x) !in imgRest;
    } else {
      assert (set k | k in ks :: Standardize(k)) == {};
    }
  }

  /** Without collisions Feed keeps one entry per loaded key. */
  lemma ResolvedSize(values: map<string, string>, environ: Environ, m: map<string, string>)
    requires forall k :: k in values ==> Unambiguous(values, k)
    requires Resolved(values, environ, m)
    ensures |m| == |values|
  {
    StandardFormsCount(values.Keys);
    assert m.Keys == set k | k in values.Keys :: Standardize(k);
  }
}
