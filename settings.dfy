/** The server's settings: five values read from the environment with
    defaults, the CORS origins as a comma-separated list. Loading a .env
    file is outside the model; the environment is a given map. */
module Settings {
  import opened Common

  type Env = map<string, string>

  /** os.getenv(name, default): a set variable wins, even when it is empty. */
  function Get(env: Env, name: string, default: string): (v: string)
    ensures name in env ==> v == env[name]
    ensures name !in env ==> v == default
  {
    if name in env then env[name] else default
  }

  /** The comprehension's filter and map: each part stripped, blank parts dropped. */
  function KeepEntries(parts: seq<string>): (r: seq<string>)
    ensures |r| <= |parts|
  {
    if parts == [] then []
    else
      var x := Strip(parts[0]);
      (if x != [] then [x] else []) + KeepEntries(parts[1..])
  }

  /** _csv on the raw value: split on ",", strip each piece, keep the non-empty ones. */
  function Csv(raw: string): seq<string> {
    KeepEntries(Split(raw, ','))
  }

  /** A value usable as one list entry. */
  predicate IsEntry(e: string) {
    e != [] && IsStripped(e) && ',' !in e
  }

  lemma {:induction false} KeepEntriesAreEntries(parts: seq<string>)
    requires forall i :: 0 <= i < |parts| ==> ',' !in parts[i]
    ensures forall i :: 0 <= i < |KeepEntries(parts)| ==> IsEntry(KeepEntries(parts)[i])
  {
    if parts != [] {
      KeepEntriesAreEntries(parts[1..]);
      var x := Strip(parts[0]);
      StripSpec(parts[0]);
      var a, b :| 0 <= a <= b <= |parts[0]| && x == parts[0][a..b];
      assert ',' !in x by {
        forall k | 0 <= k < |x| ensures x[k] != ',' {
          assert x[k] == parts[0][a + k];
        }
      }
    }
  }

  /** No entry is empty or padded with whitespace, and none holds a comma. */
  lemma CsvEntries(raw: string)
    ensures forall i :: 0 <= i < |Csv(raw)| ==> IsEntry(Csv(raw)[i])
  {
    KeepEntriesAreEntries(Split(raw, ','));
  }

  lemma {:induction false} KeepEntriesOfEntries(xs: seq<string>)
    requires forall i :: 0 <= i < |xs| ==> IsEntry(xs[i])
    ensures KeepEntries(xs) == xs
  {
    if xs != [] {
      StrippedIsFixpoint(xs[0]);
      KeepEntriesOfEntries(xs[1..]);
      assert [xs[0]] + xs[1..] == xs;
    }
  }

  /** A list of entries written out with commas reads back as itself, which
      fixes the entries' order. */
  lemma CsvJoin(xs: seq<string>)
    requires forall i :: 0 <= i < |xs| ==> IsEntry(xs[i])
    ensures Csv(Join(xs, ',')) == xs
  {
    if xs == [] {
      assert Split("", ',') == [""];
      assert Strip("") == "";
    } else {
      SplitJoin(xs, ',');
      KeepEntriesOfEntries(xs);
    }
  }

  /** The first field's entry comes before every entry of the rest. */
  lemma CsvCons(a: string, b: string)
    requires ',' !in a
    ensures Csv(a + "," + b) == Csv(a) + Csv(b)
  {
    SplitAppendFree(a, ',', b);
    assert a + "," + b == a + [','] + b;
    var r := Split(b, ',');
    assert ([a] + r)[1..] == r;
  }

  const DefaultCors: string := "http://localhost:5173,http://127.0.0.1:5173,tauri://localhost"

  const DevOrigins: seq<string> := ["http://localhost:5173", "http://127.0.0.1:5173", "tauri://localhost"]

  lemma JoinCons(x: string, xs: seq<string>, sep: char)
    requires xs != []
    ensures Join([x] + xs, sep) == x + [sep] + Join(xs, sep)
  {
    assert ([x] + xs)[1..] == xs;
  }

  lemma JoinThree(a: string, b: string, c: string, sep: char)
    ensures Join([a, b, c], sep) == a + [sep] + b + [sep] + c
  {
    assert [a, b, c] == [a] + [b, c];
    JoinCons(a, [b, c], sep);
    assert [b, c] == [b] + [c];
    JoinCons(b, [c], sep);
  }

  lemma DevOriginsSpelled()
    ensures DevOrigins[0] + [','] + DevOrigins[1] + [','] + DevOrigins[2] == DefaultCors
  {
  }

  lemma DevOriginsJoined()
    ensures Join(DevOrigins, ',') == DefaultCors
  {
    JoinThree(DevOrigins[0], DevOrigins[1], DevOrigins[2], ',');
    assert DevOrigins == [DevOrigins[0], DevOrigins[1], DevOrigins[2]];
    DevOriginsSpelled();
  }

  lemma OriginEntry(e: string)
    requires e in DevOrigins
    ensures IsEntry(e)
  {
  }

  /** The default CORS value names exactly the three development origins. */
  lemma DefaultCorsOrigins()
    ensures Csv(DefaultCors) == DevOrigins
  {
    DevOriginsJoined();
    forall i | 0 <= i < |DevOrigins| ensures IsEntry(DevOrigins[i]) {
      OriginEntry(DevOrigins[i]);
    }
    CsvJoin(DevOrigins);
  }

  // ------------------------------------------------------------- int()

  /** int(s) in base 10: surrounding whitespace, an optional sign and at least
      one ASCII digit; anything else raises, which stops the server. */
  function ParseInt(s: string): (r: Option<int>)
    ensures r.Some? ==> Strip(s) != []
  {
    var t := Strip(s);
    if t != [] && (t[0] == '-' || t[0] == '+') then
      var d := t[1..];
      if d != [] && AllDecimal(d) then
        var v: int := DigitsValue(d);
        Some(if t[0] == '-' then -v else v)
      else None
    else if t != [] && AllDecimal(t) then Some(DigitsValue(t))
    else None
  }

  /** int(str(n)) == n. */
  lemma ParseIntToString(n: int)
    ensures ParseInt(IntToString(n)) == Some(n)
  {
    var s := IntToString(n);
    var digits := NatToString(if n < 0 then -n else n);
    DigitsValueOfNatToString(if n < 0 then -n else n);
    assert IsStripped(s);
    StrippedIsFixpoint(s);
    if n < 0 {
      assert s[1..] == digits;
    }
  }

  lemma PortDefault()
    ensures ParseInt("8787") == Some(8787)
  {
    assert NatToString(8) == "8";
    assert NatToString(87) == "87";
    assert NatToString(878) == "878";
    assert NatToString(8787) == "8787";
    ParseIntToString(8787);
  }

  datatype Config = Config(
    appEnv: string, dbPath: string, bindHost: string, bindPort: int, corsOrigins: seq<string>)

  /** The settings namespace; None when BIND_PORT is not an integer. */
  function LoadSettings(env: Env): (r: Option<Config>)
    ensures r.Some? <==> ParseInt(Get(env, "BIND_PORT", "8787")).Some?
    ensures r.Some? ==> r.value.appEnv == Get(env, "APP_ENV", "local")
    ensures r.Some? ==> r.value.dbPath == Get(env, "DB_PATH", "./data/catalog.sqlite")
    ensures r.Some? ==> r.value.bindHost == Get(env, "BIND_HOST", "127.0.0.1")
    ensures r.Some? ==> r.value.bindPort == ParseInt(Get(env, "BIND_PORT", "8787")).value
    ensures r.Some? ==> r.value.corsOrigins == Csv(Get(env, "CORS_ORIGINS", DefaultCors))
  {
    var port := ParseInt(Get(env, "BIND_PORT", "8787"));
    if port.None? then None
    else Some(Config(
      Get(env, "APP_ENV", "local"),
      Get(env, "DB_PATH", "./data/catalog.sqlite"),
      Get(env, "BIND_HOST", "127.0.0.1"),
      port.value,
      Csv(Get(env, "CORS_ORIGINS", DefaultCors))))
  }

  /** With nothing set, the server binds 127.0.0.1:8787 in the local
      environment and accepts the three development origins. */
  lemma DefaultSettings()
    ensures LoadSettings(map[]) == Some(Config("local", "./data/catalog.sqlite", "127.0.0.1", 8787, DevOrigins))
  {
    DefaultCorsOrigins();
    PortDefault();
  }
}
