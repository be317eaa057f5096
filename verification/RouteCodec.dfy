/** How the routing table is written into keys and values (control/routing.go). */
module RouteCodec {
  import opened Options

  // ----- node lists

  function Join(ns: seq<string>): string
  {
    if ns == [] then "" else if |ns| == 1 then ns[0] else ns[0] + "\n" + Join(ns[1..])
  }

  function Split(s: string): (ps: seq<string>)
    ensures |ps| > 0
  {
    if s == "" then [""]
    else
      var rest := Split(s[1..]);
      if s[0] == '\n' then [""] + rest else [[s[0]] + rest[0]] + rest[1..]
  }

  function EncodeNodes(ns: seq<string>): string
  {
    Join(ns)
  }

  function DecodeNodes(b: string): seq<string>
  {
    if |b| == 0 then [] else Split(b)
  }

  ghost predicate OneLine(s: string)
  {
    '\n' !in s
  }

  lemma {:induction false} SplitLine(s: string, rest: string)
    requires OneLine(s)
    ensures Split(s) == [s]
    ensures Split(s + "\n" + rest) == [s] + Split(rest)
  {
    var t := s + "\n" + rest;
    if s == "" {
      assert t == ['\n'] + rest;
      assert t[1..] == rest;
    } else {
      SplitLine(s[1..], rest);
      assert t[1..] == s[1..] + "\n" + rest;
      assert s == [s[0]] + s[1..];
    }
  }

  lemma {:induction false} SplitJoin(ns: seq<string>)
    requires ns != [] && forall i :: 0 <= i < |ns| ==> OneLine(ns[i])
    ensures Split(Join(ns)) == ns
  {
    if |ns| == 1 {
      SplitLine(ns[0], "");
    } else {
      SplitJoin(ns[1..]);
      SplitLine(ns[0], Join(ns[1..]));
      assert ns == [ns[0]] + ns[1..];
    }
  }

  lemma {:induction false} SplitLines(s: string)
    ensures forall i :: 0 <= i < |Split(s)| ==> OneLine(Split(s)[i])
  {
    if s != "" {
      SplitLines(s[1..]);
    }
  }

  lemma {:induction false} JoinSplit(s: string)
    ensures Join(Split(s)) == s
  {
    if s != "" {
      JoinSplit(s[1..]);
      var rest := Split(s[1..]);
      assert s == [s[0]] + s[1..];
      if s[0] == '\n' {
        assert ([""] + rest)[1..] == rest;
      } else {
        var ps := [[s[0]] + rest[0]] + rest[1..];
        assert ps[1..] == rest[1..];
      }
    }
  }

  /** A node list survives the store exactly when no name spans lines and it is not one empty name. */
  lemma NodesRoundTripIff(ns: seq<string>)
    ensures DecodeNodes(EncodeNodes(ns)) == ns <==> ns != [""] && forall i :: 0 <= i < |ns| ==> OneLine(ns[i])
  {
    if ns != [] {
      if forall i :: 0 <= i < |ns| ==> OneLine(ns[i]) {
        SplitJoin(ns);
      }
      SplitLines(Join(ns));
    }
  }

  /** Every stored value is the encoding of the list it decodes to. */
  lemma NodesEncodeDecode(b: string)
    ensures EncodeNodes(DecodeNodes(b)) == b
  {
    JoinSplit(b);
  }

  // ----- route keys

  const SHARDS: nat := 0x1_0000_0000

  function Digit(d: nat): char
    requires d < 10
  {
    ('0' as int + d) as char
  }

  function Format(n: nat): (s: string)
    ensures s != ""
  {
    if n < 10 then [Digit(n)] else Format(n / 10) + [Digit(n % 10)]
  }

  /** The number a string of decimal digits denotes. */
  function Value(s: string): Option<nat>
  {
    if s == "" then Some(0)
    else
      var n := |s| - 1;
      var v := Value(s[..n]);
      if v.Some? && '0' <= s[n] <= '9' then Some(10 * v.value + (s[n] as int - '0' as int)) else None
  }

  const ROUTE: string := "route/"

  function RouteKey(shard: nat): string
  {
    ROUTE + Format(shard)
  }

  lemma FormatStep(n: nat, d: nat)
    requires 0 < n && d < 10
    ensures Format(10 * n + d) == Format(n) + [Digit(d)]
  {
    assert (10 * n + d) / 10 == n && (10 * n + d) % 10 == d;
  }

  /** The key of the last shard. */
  lemma LastRouteKey()
    ensures RouteKey(0xFFFF_FFFF) == "route/4294967295"
  {
    FormatStep(4, 2);
    FormatStep(42, 9);
    FormatStep(429, 4);
    FormatStep(4294, 9);
    FormatStep(42949, 6);
    FormatStep(429496, 7);
    FormatStep(4294967, 2);
    FormatStep(42949672, 9);
    FormatStep(429496729, 5);
    assert Format(4) == "4";
    assert Format(42949) == "42949";
    assert Format(4294967295) == "4294967295";
  }

  function ParseRouteKey(key: string): Option<nat>
  {
    if !(ROUTE <= key) || key == ROUTE then None
    else
      var v := Value(key[|ROUTE|..]);
      if v.Some? && v.value < SHARDS then v else None
  }

  lemma {:induction false} ValueFormat(n: nat)
    ensures Value(Format(n)) == Some(n)
  {
    if n < 10 {
      assert [Digit(n)][..0] == "";
    } else {
      ValueFormat(n / 10);
      assert Format(n)[..|Format(n)| - 1] == Format(n / 10);
    }
  }

  lemma ParseRouteKeyInverts(shard: nat)
    ensures ParseRouteKey(RouteKey(shard)) == if shard < SHARDS then Some(shard) else None
  {
    ValueFormat(shard);
    assert RouteKey(shard)[|ROUTE|..] == Format(shard);
  }

  lemma RouteKeyInjective(a: nat, b: nat)
    requires RouteKey(a) == RouteKey(b)
    ensures a == b
  {
    assert RouteKey(a)[|ROUTE|..] == Format(a);
    assert RouteKey(b)[|ROUTE|..] == Format(b);
    ValueFormat(a);
    ValueFormat(b);
  }

  lemma {:induction false} FormatValue(s: string)
    requires s != "" && Value(s).Some?
    ensures s[0] != '0' ==> Value(s).value > 0 && Format(Value(s).value) == s
    ensures s == "0" ==> Format(Value(s).value) == s
    ensures s[0] == '0' && |s| > 1 ==> Format(Value(s).value) != s
  {
    var n := |s| - 1;
    var t := s[..n];
    assert s == t + [s[n]];
    if t == "" {
      assert s == [s[0]] && Value(s).value == s[0] as int - '0' as int;
      assert Digit(Value(s).value) == s[0];
    } else {
      FormatValue(t);
      assert t[0] == s[0];
      var v, d := Value(t).value, s[n] as int - '0' as int;
      assert Value(s).value == 10 * v + d;
      if s[0] == '0' {
        FormatLeading(Value(s).value);
      } else {
        assert (10 * v + d) / 10 == v && (10 * v + d) % 10 == d;
      }
    }
  }

  lemma {:induction false} FormatLeading(n: nat)
    ensures n > 0 ==> Format(n)[0] != '0'
    ensures n == 0 ==> |Format(n)| == 1
  {
    if n >= 10 { FormatLeading(n / 10); }
  }

  /** A key that names a shard is the one Publish writes exactly when it has no leading zero. */
  lemma CanonicalIff(key: string)
    requires ParseRouteKey(key).Some?
    ensures key == RouteKey(ParseRouteKey(key).value) <==> key == ROUTE + "0" || key[|ROUTE|] != '0'
  {
    var s := key[|ROUTE|..];
    assert key == ROUTE + s;
    FormatValue(s);
    assert RouteKey(Value(s).value)[|ROUTE|..] == Format(Value(s).value);
    assert (ROUTE + "0")[|ROUTE|..] == "0";
  }
}
