/**
 * The logic of the stand-alone test driver: the case-insensitive wildcard
 * matcher that selects tests by name, the table walk that runs the
 * selected tests, and the two fixed-width hex formatters it checks.
 */
module TestDriver {
  import opened Common

  // ------------------------------------------------------------ name_match

  /** Skips a leading run of `*` ("collapse multiple stars"). */
  function DropStars(w: string): (r: string)
    ensures |r| <= |w| && r == w[|w| - |r|..]
    ensures r == [] || r[0] != '*'
  {
    if w != [] && w[0] == '*' then DropStars(w[1..]) else w
  }

  /**
   * `name_match(wildcard, string) == NAME_MATCH`, branch for branch: the
   * end of the wildcard needs the end of the string; a star collapses the
   * stars after it, matches at once when nothing follows, and otherwise
   * tries the rest of the wildcard against every non-empty suffix; any
   * other character must equal the next string character up to case.
   */
  function NameMatch(w: string, s: string): bool
    decreases |w|, |s|, 1
  {
    if w == [] then s == []
    else if w[0] == '*' then
      var rest := DropStars(w[1..]);
      if rest == [] then true else AnySuffixMatch(rest, s)
    else s != [] && ToUpper(w[0]) == ToUpper(s[0]) && NameMatch(w[1..], s[1..])
  }

  /** The recursive `while (*string)` loop of the star case. */
  function AnySuffixMatch(rest: string, s: string): bool
    decreases |rest| + 1, |s|, 0
  {
    s != [] && (NameMatch(rest, s) || AnySuffixMatch(rest, s[1..]))
  }

  /**
   * The textbook meaning of a `*`-only wildcard, as a reference for
   * `NameMatch`: a star stands for any (possibly empty) run of characters,
   * every other character for itself up to case.
   */
  ghost predicate Matches(w: string, s: string)
    decreases |w|
  {
    if w == [] then s == []
    else if w[0] == '*' then exists k | 0 <= k <= |s| :: Matches(w[1..], s[k..])
    else s != [] && ToUpper(w[0]) == ToUpper(s[0]) && Matches(w[1..], s[1..])
  }

  /** Two leading stars match what one does. */
  lemma StarStar(w: string, s: string)
    requires |w| >= 2 && w[0] == '*' && w[1] == '*'
    ensures Matches(w, s) <==> Matches(w[1..], s)
  {
    assert w[1..][1..] == w[2..];
    if Matches(w, s) {
      var k :| 0 <= k <= |s| && Matches(w[1..], s[k..]);
      var k2 :| 0 <= k2 <= |s[k..]| && Matches(w[2..], s[k..][k2..]);
      assert s[k..][k2..] == s[k + k2..];
      assert Matches(w[2..], s[k + k2..]);
    }
    if Matches(w[1..], s) {
      assert s[0..] == s;
      assert Matches(w[1..], s[0..]);
    }
  }

  lemma {:induction false} LeadingStars(w: string, s: string)
    requires w != [] && w[0] == '*'
    ensures Matches(w, s) <==> exists k | 0 <= k <= |s| :: Matches(DropStars(w[1..]), s[k..])
    decreases |w|
  {
    if |w| >= 2 && w[1] == '*' {
      StarStar(w, s);
      LeadingStars(w[1..], s);
      assert w[1..][1..] == w[2..];
    }
  }

  lemma {:induction false} AnySuffixMatchMeans(rest: string, s: string)
    ensures AnySuffixMatch(rest, s) <==> exists k | 0 <= k < |s| :: NameMatch(rest, s[k..])
    decreases |s|, 1
  {
    if s != [] {
      AnySuffixMatchMeans(rest, s[1..]);
      if AnySuffixMatch(rest, s) {
        if NameMatch(rest, s) {
          assert s[0..] == s;
          assert NameMatch(rest, s[0..]);
        } else {
          var k :| 0 <= k < |s[1..]| && NameMatch(rest, s[1..][k..]);
          assert s[1..][k..] == s[k + 1..];
          assert NameMatch(rest, s[k + 1..]);
        }
      }
      if exists k | 0 <= k < |s| :: NameMatch(rest, s[k..]) {
        SuffixWitness(rest, s);
      }
    }
  }

  lemma {:induction false} SuffixWitness(rest: string, s: string)
    requires exists k | 0 <= k < |s| :: NameMatch(rest, s[k..])
    ensures AnySuffixMatch(rest, s)
    decreases |s|, 0
  {
    AnySuffixMatchMeans(rest, s[1..]);
    var k :| 0 <= k < |s| && NameMatch(rest, s[k..]);
    if k == 0 {
      assert s[0..] == s;
    } else {
      assert s[1..][k - 1..] == s[k..];
      assert NameMatch(rest, s[1..][k - 1..]);
    }
  }

  /** The matcher's shortcuts do not change what it means. */
  lemma {:induction false} NameMatchIsMatches(w: string, s: string)
    ensures NameMatch(w, s) == Matches(w, s)
    decreases |w|, |s|
  {
    if w == [] {
    } else if w[0] == '*' {
      var rest := DropStars(w[1..]);
      LeadingStars(w, s);
      if rest == [] {
        assert s[|s|..] == [];
        assert Matches(rest, s[|s|..]);
      } else {
        assert !Matches(rest, s[|s|..]);
        AnySuffixMatchMeans(rest, s);
        forall k | 0 <= k < |s|
          ensures NameMatch(rest, s[k..]) == Matches(rest, s[k..])
        {
          NameMatchIsMatches(rest, s[k..]);
        }
      }
    } else {
      if s != [] {
        NameMatchIsMatches(w[1..], s[1..]);
      }
    }
  }

  /** `"*"` selects every test, including one with an empty name. */
  lemma StarMatchesEverything(s: string)
    ensures NameMatch("*", s)
  {
    assert "*"[1..] == [];
  }

  /** The empty wildcard matches the empty string and nothing else. */
  lemma EmptyWildcard(s: string)
    ensures NameMatch("", s) <==> s == ""
  {
  }

  /** A star before a star changes nothing: runs of stars act as one. */
  lemma StarRunIsOneStar(w: string, s: string)
    requires w != [] && w[0] == '*'
    ensures NameMatch("*" + w, s) == NameMatch(w, s)
  {
    assert ("*" + w)[1..] == w;
    assert DropStars(w) == DropStars(w[1..]);
  }

  /** Without stars, matching is equality up to case. */
  lemma {:induction false} StarFreeMatch(w: string, s: string)
    requires '*' !in w
    ensures NameMatch(w, s) <==> EqualsIgnoreCase(w, s)
  {
    if w != [] && s != [] {
      assert '*' !in w[1..] by {
        forall i | 0 <= i < |w[1..]| ensures w[1..][i] != '*' {
          assert w[1..][i] == w[i + 1];
        }
      }
      StarFreeMatch(w[1..], s[1..]);
      if EqualsIgnoreCase(w, s) {
        forall i | 0 <= i < |w[1..]|
          ensures ToUpper(w[1..][i]) == ToUpper(s[1..][i])
        {
          assert ToUpper(w[i + 1]) == ToUpper(s[i + 1]);
        }
      }
      if NameMatch(w, s) {
        forall i | 0 <= i < |w|
          ensures ToUpper(w[i]) == ToUpper(s[i])
        {
          if i > 0 {
            assert ToUpper(w[1..][i - 1]) == ToUpper(s[1..][i - 1]);
          }
        }
      }
    }
  }

  // -------------------------------------------------------------- run_test

  const TEST_PREFIX: string := "test_"

  /** The names in `tests[]`, in table order. */
  const TESTS: seq<string> := [
    "test_ptr_or_error32", "test_ptr_or_error32b", "test_ptr_or_error64",
    "test_WSAStartup", "test_gethostbyaddr", "test_gethostbyname",
    "test_IDNA_functions", "test_getprotobyname", "test_getprotobynumber",
    "test_getservbyname", "test_getservbyport", "test_getnameinfo",
    "test_getaddrinfo", "test_gai_strerror", "test_socket",
    "test_socket_unix", "test_ioctlsocket", "test_connect",
    "test_select", "test_select2", "test_send", "test_WSAPoll",
    "test_WSAFDIsSet", "test_WSAAddressToStringA", "test_WSAAddressToStringW",
    "test_WSAAddressToStringWP", "test_WSAStringToAddressA",
    "test_WSAStringToAddressW", "test_WSAEnumProtocols", "test_WSACleanup"
  ]

  /** Every table name carries the `test_` prefix that `run_test` strips. */
  predicate WellNamed(names: seq<string>)
  {
    forall i | 0 <= i < |names| :: |names[i]| >= |TEST_PREFIX| && names[i][..|TEST_PREFIX|] == TEST_PREFIX
  }

  /** The two `assert`s of `run_test` hold of the table. */
  lemma TestTableChecks()
    ensures WellNamed(TESTS)
    ensures TESTS[|TESTS| - 1] == "test_WSACleanup"
  {
  }

  /**
   * `t->name + strlen("test_")`: the part of a table name the wildcard is
   * matched against. Only applied to `WellNamed` tables.
   */
  function TestName(entry: string): string
  {
    if |entry| < |TEST_PREFIX| then [] else entry[|TEST_PREFIX|..]
  }

  /** The entries a wildcard selects, in table order. */
  function Selected(names: seq<string>, w: string): (r: seq<string>)
    ensures |r| <= |names|
  {
    if names == [] then []
    else (if NameMatch(w, TestName(names[0])) then [names[0]] else [])
         + Selected(names[1..], w)
  }

  /** A name is run exactly when it is in the table and its tail matches. */
  lemma {:induction false} SelectedMembers(names: seq<string>, w: string, t: string)
    ensures t in Selected(names, w) <==> t in names && NameMatch(w, TestName(t))
  {
    if names != [] {
      SelectedMembers(names[1..], w, t);
      assert t in names <==> t == names[0] || t in names[1..];
    }
  }

  /** `run_test("*")`, what `main` does without arguments, runs every test. */
  lemma {:induction false} StarSelectsAll(names: seq<string>)
    ensures Selected(names, "*") == names
  {
    if names != [] {
      StarMatchesEverything(TestName(names[0]));
      StarSelectsAll(names[1..]);
    }
  }

  /**
   * `run_test(wildcard)` over the table `tests` (the driver passes
   * `TESTS`): walks it in order, runs each test whose name without
   * `test_` matches, and returns how many ran. The tests' own effects are
   * outside the model; `ran` records which were called, in call order.
   * The two `assert`s of the source are its preconditions.
   */
  method RunTest(tests: seq<string>, w: string) returns (rc: nat, ran: seq<string>)
    requires WellNamed(tests)
    requires |tests| > 0 && tests[|tests| - 1] == "test_WSACleanup"
    ensures ran == Selected(tests, w)
    ensures rc == |ran|
  {
    rc, ran := 0, [];
    var i := 0;
    while i < |tests|
      invariant 0 <= i <= |tests|
      invariant ran + Selected(tests[i..], w) == Selected(tests, w)
      invariant rc == |ran|
    {
      assert tests[i..][1..] == tests[i + 1..];
      var name := TestName(tests[i]);
      if NameMatch(w, name) {
        rc := rc + 1;
        ran := ran + [tests[i]];
      }
      i := i + 1;
    }
  }

  // ---------------------------------------------- ptr_or_error32 / 64

  /** `ptr_or_error32(x)`: "0x" and the 8 hex digits of a 32-bit `ULONG`. */
  method PtrOrError32(x: nat) returns (s: string)
    requires x < U32_MOD
    ensures s == "0x" + Hex(x, 8)
    ensures |s| == 10 && ParseHex(s[2..]) == Some(x)
  {
    var buf := new char[30](_ => '\0');
    FillHex(buf, x, 4);
    s := ReadCString(buf, x, 4);
    WordSizes();
    HexRoundTrip(x, 8);
  }

  /** `ptr_or_error64(x)`: "0x" and the 16 hex digits of a `ULONG64`. */
  method PtrOrError64(x: nat) returns (s: string)
    requires x < U64_MOD
    ensures s == "0x" + Hex(x, 16)
    ensures |s| == 18 && ParseHex(s[2..]) == Some(x)
  {
    var buf := new char[30](_ => '\0');
    FillHex(buf, x, 8);
    s := ReadCString(buf, x, 8);
    WordSizes();
    HexRoundTrip(x, 16);
  }

  /** Digits that fit are read back exactly. */
  lemma HexRoundTrip(x: nat, n: nat)
    requires x < Pow16(n)
    ensures ParseHex(("0x" + Hex(x, n))[2..]) == Some(x)
  {
    assert ("0x" + Hex(x, n))[2..] == Hex(x, n);
    ParseHexOfHex(x, n);
  }

  /**
   * What a caller sees of the zeroed `static char buf[30]` after the
   * fill: the terminator the `memset` left at `buf[2+2*size]` ends it.
   */
  method ReadCString(buf: array<char>, ghost x: nat, ghost size: nat) returns (s: string)
    requires buf.Length > 2 + 2 * size
    requires buf[..2 + 2 * size] == "0x" + Hex(x, 2 * size)
    requires buf[2 + 2 * size] == '\0'
    ensures s == "0x" + Hex(x, 2 * size)
  {
    HexHasNoNul(x, 2 * size);
    assert buf[..] == buf[..2 + 2 * size] + buf[2 + 2 * size..];
    UpToNulTerminated(buf[..2 + 2 * size], buf[2 + 2 * size..]);
    s := UpToNul(buf[..]);
  }

  /** `test_ptr_or_error32` holds of the model. */
  lemma PtrOrError32Vector(x: nat)
    requires x == 0x11223344
    ensures Hex(x, 8) == "11223344"
  {
    assert Shift(x, 1) == 0x1122334;
    assert Shift(x, 2) == 0x112233;
    assert Shift(x, 3) == 0x11223;
    assert Shift(x, 4) == 0x1122;
    assert Shift(x, 5) == 0x112;
    assert Shift(x, 6) == 0x11;
    assert Shift(x, 7) == 0x1;
    forall i | 0 <= i < 8 ensures Hex(x, 8)[i] == "11223344"[i] {
      HexAt(x, 8, i);
    }
  }

  /** `test_ptr_or_error32b` holds of the model. */
  lemma PtrOrError32bVector(x: nat)
    requires x == 0x11223345
    ensures Hex(x, 8) == "11223345"
  {
    assert Shift(x, 1) == 0x1122334;
    assert Shift(x, 2) == 0x112233;
    assert Shift(x, 3) == 0x11223;
    assert Shift(x, 4) == 0x1122;
    assert Shift(x, 5) == 0x112;
    assert Shift(x, 6) == 0x11;
    assert Shift(x, 7) == 0x1;
    forall i | 0 <= i < 8 ensures Hex(x, 8)[i] == "11223345"[i] {
      HexAt(x, 8, i);
    }
  }

  /** The low half of `test_ptr_or_error64`. */
  lemma LowHalf64(x: nat)
    requires x == 0x11223344AABBCCDD
    ensures Hex(x, 8) == "AABBCCDD" && Shift(x, 8) == 0x11223344
  {
    assert Shift(x, 1) == 0x11223344AABBCCD;
    assert Shift(x, 2) == 0x11223344AABBCC;
    assert Shift(x, 3) == 0x11223344AABBC;
    assert Shift(x, 4) == 0x11223344AABB;
    assert Shift(x, 5) == 0x11223344AAB;
    assert Shift(x, 6) == 0x11223344AA;
    assert Shift(x, 7) == 0x11223344A;
    assert Shift(x, 8) == 0x11223344;
    forall i | 0 <= i < 8 ensures Hex(x, 8)[i] == "AABBCCDD"[i] {
      HexAt(x, 8, i);
    }
  }

  /** `test_ptr_or_error64` holds of the model. */
  lemma PtrOrError64Vector(x: nat)
    requires x == 0x11223344AABBCCDD
    ensures Hex(x, 16) == "11223344" + "AABBCCDD"
  {
    assert Hex(x, 8) == "AABBCCDD" by {
      LowHalf64(x);
    }
    assert Hex(Shift(x, 8), 8) == "11223344" by {
      LowHalf64(x);
      PtrOrError32Vector(Shift(x, 8));
    }
    HexJoin(x, "11223344", "AABBCCDD");
  }

  /** A 16-digit hex text is its high 8 digits followed by its low 8. */
  lemma HexJoin(x: nat, high: string, low: string)
    requires Hex(Shift(x, 8), 8) == high && Hex(x, 8) == low
    ensures Hex(x, 16) == high + low
  {
    HexSplit(x, 8, 8);
  }
}
