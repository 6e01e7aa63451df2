/**
  Worked scenarios: example behaviour of the env feeder on concrete
  files and environments, derived from the general contracts.
 */
module FeederScenarios {
  import opened Text
  import opened Feeder

  lemma StandardizeAppName()
    ensures Standardize("APP_NAME") == "app.name"
  {
    var k, r := "APP_NAME", Standardize("APP_NAME");
    assert r[0] == LowerChar(k[0]) == 'a';
    assert r[1] == LowerChar(k[1]) == 'p';
    assert r[2] == LowerChar(k[2]) == 'p';
    assert r[3] == '.';
    assert r[4] == LowerChar(k[4]) == 'n';
    assert r[5] == LowerChar(k[5]) == 'a';
    assert r[6] == LowerChar(k[6]) == 'm';
    assert r[7] == LowerChar(k[7]) == 'e';
  }

  lemma StandardizeAppPort()
    ensures Standardize("APP_PORT") == "app.port"
  {
    var k, r := "APP_PORT", Standardize("APP_PORT");
    assert r[0] == LowerChar(k[0]) == 'a';
    assert r[1] == LowerChar(k[1]) == 'p';
    assert r[2] == LowerChar(k[2]) == 'p';
    assert r[3] == '.';
    assert r[4] == LowerChar(k[4]) == 'p';
    assert r[5] == LowerChar(k[5]) == 'o';
    assert r[6] == LowerChar(k[6]) == 'r';
    assert r[7] == LowerChar(k[7]) == 't';
  }

  lemma StandardizeShortKeys()
    ensures Standardize("URL") == "url"
    ensures Standardize("A") == "a"
  {
    var r := Standardize("URL");
    assert r[0] == LowerChar('U') == 'u';
    assert r[1] == LowerChar('R') == 'r';
    assert r[2] == LowerChar('L') == 'l';
    assert Standardize("A")[0] == LowerChar('A') == 'a';
  }

  /** `a_b` and `a.b` collide: both become `a.b`. */
  lemma StandardizeCollision()
    ensures Standardize("a_b") == Standardize("a.b") == "a.b"
  {
  }

  /** Only the first `=` splits. */
  lemma ParseUrl()
    ensures Parse("URL=http://x?a=1") == Ok(Entry("URL", "http://x?a=1"))
  {
    assert "URL=http://x?a=1" == "URL" + "=" + "http://x?a=1";
    ParseAssignment("URL", "http://x?a=1");
  }

  lemma ParseCommentAndBlank()
    ensures Parse("# comment") == Ok(Entry("", ""))
    ensures Parse("") == Ok(Entry("", ""))
    ensures Parse("  \t ") == Ok(Entry("", ""))
  {
    TrimSpaceOfTrimmed("# comment");
  }

  lemma ParseNoValue()
    ensures Parse("NOVALUE") == Err("Invalid line: NOVALUE")
  {
    var line := "NOVALUE";
    TrimSpaceOfTrimmed(line);
    assert forall k :: 0 <= k < |line| ==> line[k] != '=';
    assert InvalidLine + line == "Invalid line: NOVALUE";
  }

  /** `=value` parses, but to the empty key, so read drops it. */
  lemma ParseEmptyKey()
    ensures Parse("=value") == Ok(Entry("", "value"))
  {
    assert "=value" == "" + "=" + "value";
    ParseAssignment("", "value");
  }

  lemma ParseAppName()
    ensures Parse("APP_NAME=demo") == Ok(Entry("APP_NAME", "demo"))
  {
    assert "APP_NAME=demo" == "APP_NAME" + "=" + "demo";
    ParseAssignment("APP_NAME", "demo");
  }

  lemma ParseAppPort()
    ensures Parse("APP_PORT=8080") == Ok(Entry("APP_PORT", "8080"))
  {
    assert "APP_PORT=8080" == "APP_PORT" + "=" + "8080";
    ParseAssignment("APP_PORT", "8080");
  }

  lemma ParseDigits()
    ensures Parse("A=1") == Ok(Entry("A", "1"))
    ensures Parse("A=2") == Ok(Entry("A", "2"))
  {
    assert "A=1" == "A" + "=" + "1";
    ParseAssignment("A", "1");
    assert "A=2" == "A" + "=" + "2";
    ParseAssignment("A", "2");
  }

  lemma ParseAllCommented()
    ensures ParseAll(["# comment", "", "APP_PORT=8080"])
            == [Ok(Entry("", "")), Ok(Entry("", "")), Ok(Entry("APP_PORT", "8080"))]
  {
    ParseCommentAndBlank();
    ParseAppPort();
  }

  lemma AccumulateCommented()
    ensures Accumulate([Ok(Entry("", "")), Ok(Entry("", "")), Ok(Entry("APP_PORT", "8080"))])
            == Ok(map["APP_PORT" := "8080"])
  {
    var ps := [Ok(Entry("", "")), Ok(Entry("", "")), Ok(Entry("APP_PORT", "8080"))];
    assert Accumulate(ps[..1]) == Ok(map[]) by {
      assert ps[..1][..0] == [];
    }
    assert Accumulate(ps[..2]) == Ok(map[]) by {
      assert ps[..2][..1] == ps[..1];
    }
    assert ps[..2] == ps[..|ps| - 1];
  }

  lemma ReadSkipsCommentsAndBlanks()
    ensures ReadOutcome(["# comment", "", "APP_PORT=8080"], None) == Ok(map["APP_PORT" := "8080"])
  {
    ParseAllCommented();
    AccumulateCommented();
  }

  /** ParseAll on two lines, for lines not known in advance. */
  lemma ParseAllTwo(a: string, b: string)
    ensures ParseAll([a, b]) == [Parse(a), Parse(b)]
  {
  }

  lemma ParseAllDuplicate()
    ensures ParseAll(["A=1", "A=2"]) == [Ok(Entry("A", "1")), Ok(Entry("A", "2"))]
  {
    ParseAllTwo("A=1", "A=2");
    ParseDigits();
  }

  lemma AccumulateDuplicate()
    ensures Accumulate([Ok(Entry("A", "1")), Ok(Entry("A", "2"))]) == Ok(map["A" := "2"])
  {
    var ps := [Ok(Entry("A", "1")), Ok(Entry("A", "2"))];
    assert Accumulate(ps[..1]) == Ok(map["A" := "1"]) by {
      assert ps[..1][..0] == [];
    }
    assert ps[..1] == ps[..|ps| - 1];
    assert map["A" := "1"]["A" := "2"] == map["A" := "2"];
  }

  lemma ReadDuplicateLastWins()
    ensures ReadOutcome(["A=1", "A=2"], None) == Ok(map["A" := "2"])
  {
    ParseAllDuplicate();
    AccumulateDuplicate();
  }

  lemma ParseAllMalformed()
    ensures ParseAll(["APP_NAME=demo", "NOVALUE"])
            == [Ok(Entry("APP_NAME", "demo")), Err("Invalid line: NOVALUE")]
  {
    ParseAllTwo("APP_NAME=demo", "NOVALUE");
    ParseAppName();
    ParseNoValue();
  }

  lemma AccumulateMalformed()
    ensures Accumulate([Ok(Entry("APP_NAME", "demo")), Err("Invalid line: NOVALUE")])
            == Err("Invalid line: NOVALUE")
  {
    var ps := [Ok(Entry("APP_NAME", "demo")), Err("Invalid line: NOVALUE")];
    assert Accumulate(ps[..1]) == Ok(map["APP_NAME" := "demo"]) by {
      assert ps[..1][..0] == [];
    }
    assert ps[..1] == ps[..|ps| - 1];
  }

  lemma ReadMalformedFails()
    ensures ReadOutcome(["APP_NAME=demo", "NOVALUE"], None) == Err("Invalid line: NOVALUE")
  {
    ParseAllMalformed();
    AccumulateMalformed();
  }

  lemma ReadAppName()
    ensures ReadOutcome(["APP_NAME=demo"], None) == Ok(map["APP_NAME" := "demo"])
  {
    ParseAppName();
    var ps := [Ok(Entry("APP_NAME", "demo"))];
    assert ParseAll(["APP_NAME=demo"]) == ps;
    assert ps[..0] == [];
  }

  lemma ReadUrl()
    ensures ReadOutcome(["URL=http://x?a=1"], None) == Ok(map["URL" := "http://x?a=1"])
  {
    ParseUrl();
    var ps := [Ok(Entry("URL", "http://x?a=1"))];
    assert ParseAll(["URL=http://x?a=1"]) == ps;
    assert ps[..0] == [];
  }

  /** A file with a single key feeds a single standardized entry. */
  lemma ResolvedSingle(k: string, v: string, environ: Environ, m: map<string, string>)
    requires Resolved(map[k := v], environ, m)
    ensures m == map[Standardize(k) := Get(environ, k, v)]
  {
    ResolvedUnambiguous(map[k := v], environ, m, k);
    assert m.Keys == {Standardize(k)};
  }

  /** When every loaded key has the standard form `sk`, Feed keeps the single
      entry `sk`, holding the resolved value of one of the keys. */
  lemma ResolvedOneForm(values: map<string, string>, environ: Environ, m: map<string, string>, sk: string)
    requires values != map[] && forall k :: k in values ==> Standardize(k) == sk
    requires Resolved(values, environ, m)
    ensures m.Keys == {sk}
    ensures exists k :: k in values && m[sk] == Get(environ, k, values[k])
  {
    var k0 :| k0 in values;
    assert sk in m;
  }

  /** Two loaded keys with the same standard form feed one entry, holding
      the resolved value of either key. */
  lemma ResolvedPair(k1: string, v1: string, k2: string, v2: string, environ: Environ, m: map<string, string>)
    requires k1 != k2 && Standardize(k1) == Standardize(k2)
    requires Resolved(map[k1 := v1, k2 := v2], environ, m)
    ensures m == map[Standardize(k1) := Get(environ, k1, v1)] || m == map[Standardize(k1) := Get(environ, k2, v2)]
  {
    var values := map[k1 := v1, k2 := v2];
    ResolvedOneForm(values, environ, m, Standardize(k1));
  }

  /** When `a_b` and `a.b` are both loaded, Feed keeps one `a.b` entry
      holding either value; which one is left to Go's map order. */
  lemma ResolvedCollision(m: map<string, string>)
    requires Resolved(map["a_b" := "1", "a.b" := "2"], map[], m)
    ensures m == map["a.b" := "1"] || m == map["a.b" := "2"]
  {
    StandardizeCollision();
    ResolvedPair("a_b", "1", "a.b", "2", map[], m);
  }

  /** With no override, `APP_NAME=demo` feeds `app.name` -> `demo`. */
  method FeedFileValue() {
    var appName: FileSystem := _ => Opened(["APP_NAME=demo"], None);
    ReadAppName();
    StandardizeAppName();
    var r := Feed(Env(".env"), appName, map[]);
    ResolvedSingle("APP_NAME", "demo", map[], r.value);
    assert r == Ok(map["app.name" := "demo"]);
  }

  /** A non-empty environment variable of the raw key's name wins. */
  method FeedEnvironmentOverride() {
    var appName: FileSystem := _ => Opened(["APP_NAME=demo"], None);
    var environ := map["APP_NAME" := "override"];
    ReadAppName();
    StandardizeAppName();
    var r := Feed(Env(".env"), appName, environ);
    ResolvedSingle("APP_NAME", "demo", environ, r.value);
    assert r == Ok(map["app.name" := "override"]);
  }

  /** A variable set to "" does not override the file. */
  method FeedEmptyVariable() {
    var appName: FileSystem := _ => Opened(["APP_NAME=demo"], None);
    var environ := map["APP_NAME" := ""];
    ReadAppName();
    StandardizeAppName();
    var r := Feed(Env(".env"), appName, environ);
    ResolvedSingle("APP_NAME", "demo", environ, r.value);
    assert r == Ok(map["app.name" := "demo"]);
  }

  /** Comments and blank lines add nothing: only `app.port` is fed. */
  method FeedSkipsCommentsAndBlanks() {
    var commented: FileSystem := _ => Opened(["# comment", "", "APP_PORT=8080"], None);
    ReadSkipsCommentsAndBlanks();
    StandardizeAppPort();
    var r := Feed(Env(".env"), commented, map[]);
    ResolvedSingle("APP_PORT", "8080", map[], r.value);
    assert r == Ok(map["app.port" := "8080"]);
  }

  /** The last line defining a key gives the fed value. */
  method FeedDuplicateLastWins() {
    var duplicate: FileSystem := _ => Opened(["A=1", "A=2"], None);
    ReadDuplicateLastWins();
    StandardizeShortKeys();
    var r := Feed(Env(".env"), duplicate, map[]);
    ResolvedSingle("A", "2", map[], r.value);
    assert r == Ok(map["a" := "2"]);
  }

  /** A value holding `=` is fed whole. */
  method FeedUrl() {
    var url: FileSystem := _ => Opened(["URL=http://x?a=1"], None);
    ReadUrl();
    StandardizeShortKeys();
    var r := Feed(Env(".env"), url, map[]);
    ResolvedSingle("URL", "http://x?a=1", map[], r.value);
    assert r == Ok(map["url" := "http://x?a=1"]);
  }

  /** A malformed line makes Feed fail with the line's error and no map. */
  method FeedMalformed() {
    var malformed: FileSystem := _ => Opened(["APP_NAME=demo", "NOVALUE"], None);
    ReadMalformedFails();
    var r := Feed(Env(".env"), malformed, map[]);
    assert r == Err("Invalid line: NOVALUE");
  }

  /** Open and scanner errors pass through Feed unchanged. */
  method FeedLoadErrors() {
    var missing: FileSystem := _ => OpenFailed("no such file or directory");
    var r := Feed(Env(".env"), missing, map[]);
    assert r == Err("no such file or directory");

    var unreadable: FileSystem := _ => Opened([], Some("read error"));
    assert ParseAll([]) == [];
    r := Feed(Env(".env"), unreadable, map[]);
    assert r == Err("read error");
  }
}
