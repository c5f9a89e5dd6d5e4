/** Version strings of the self-upgrade: parsing into major, minor, patch
    and pre-release, and the three-way comparison the upgrade decision
    rests on. */
module Version {
  import opened Wrappers
  import opened Text

  datatype VersionComponents = VersionComponents(major: int, minor: int, patch: int, pre: string)

  /** Why a version string is rejected, with the text Go's message quotes. */
  datatype VersionError =
    | InvalidFormat(version: string)
    | InvalidMajor(part: string)
    | InvalidMinor(part: string)
    | InvalidPatch(part: string)

  // ---------------------------------------------------------------------
  // Parsing

  /** The trimmed text up to its first space. */
  function FirstWord(s: string): (r: string)
    ensures r <= TrimSpace(s) && ' ' !in r
    ensures |r| < |TrimSpace(s)| ==> TrimSpace(s)[|r|] == ' '
  {
    var t := TrimSpace(s);
    var i := IndexOf(t, ' ');
    if i < 0 then t else t[..i]
  }

  /** A leading "version" in any case removed. Go lowers the string and then
      skips seven bytes; the only character lowering into "version" that is
      not one byte long is U+0130 (two bytes, lowered to 'i'), in which case
      those seven bytes are the first six characters. */
  function StripVersionWord(s: string): (r: string)
    ensures |s| < 7 || ToLower(s[..7]) != "version" ==> r == s
    ensures |s| >= 7 && ToLower(s[..7]) == "version" && s[4] != '\U{0130}' ==> s == s[..7] + r
    ensures |s| >= 7 && ToLower(s[..7]) == "version" && s[4] == '\U{0130}' ==> s == s[..6] + r
  {
    if |s| >= 7 && ToLower(s[..7]) == "version" then
      if s[4] == '\U{0130}' then s[6..] else s[7..]
    else s
  }

  /** The numeric part and the pre-release: split at the first '-' or '_'. */
  function SplitPre(v: string): (r: (string, string))
    ensures |r.0| <= |v| && r.0 == v[..|r.0|]
    ensures forall k :: 0 <= k < |r.0| ==> v[k] != '-' && v[k] != '_'
    ensures |r.0| == |v| ==> r.1 == ""
    ensures |r.0| < |v| ==> (v[|r.0|] == '-' || v[|r.0|] == '_') && r.1 == v[|r.0| + 1..]
  {
    var idx := IndexAny(v, {'-', '_'});
    if idx < 0 then (v, "") else (v[..idx], v[idx + 1..])
  }

  /** The patch part without build information after '+' or '_'. */
  function PatchDigits(part: string): (r: string)
    ensures r <= part && '+' !in r && '_' !in r
    ensures '+' !in part && '_' !in part ==> r == part
  {
    var idx := IndexAny(part, {'+', '_'});
    if idx >= 0 then part[..idx] else part
  }

  /** `parseVersion`: the first word, without its "version", "v" or "V"
      prefix, split into its numeric part and pre-release. */
  function ParseVersion(version: string): (r: Result<VersionComponents, VersionError>)
    ensures r.Ok? ==> r.value.pre == SplitPre(Stripped(version)).1
    ensures r.Ok? ==> Atoi(Split(SplitPre(Stripped(version)).0, '.')[0]) == Ok(r.value.major)
    ensures r.Err? && r.error.InvalidFormat? ==>
      r.error.version == SplitPre(Stripped(version)).0 && |Split(r.error.version, '.')| > 3
  {
    var (num, pre) := SplitPre(Stripped(version));
    ParseNumeric(num, pre)
  }

  /** The numeric part read as one to three dot-separated integers, the
      missing ones 0, with build information after the patch ignored. */
  function ParseNumeric(num: string, pre: string): (r: Result<VersionComponents, VersionError>)
    ensures var parts := Split(num, '.');
      r.Ok? <==>
        |parts| <= 3 && Atoi(parts[0]).Ok?
        && (|parts| > 1 ==> Atoi(parts[1]).Ok?)
        && (|parts| > 2 ==> Atoi(PatchDigits(parts[2])).Ok?)
    ensures r.Ok? ==> r.value.pre == pre
    ensures r.Ok? ==> MinInt64 <= r.value.major <= MaxInt64
    ensures r.Ok? ==> MinInt64 <= r.value.minor <= MaxInt64 && MinInt64 <= r.value.patch <= MaxInt64
    ensures r.Ok? ==> Atoi(Split(num, '.')[0]) == Ok(r.value.major)
    ensures var parts := Split(num, '.');
      r.Ok? && |parts| > 1 ==> Atoi(parts[1]) == Ok(r.value.minor)
    ensures var parts := Split(num, '.');
      r.Ok? && |parts| > 2 ==> Atoi(PatchDigits(parts[2])) == Ok(r.value.patch)
    ensures |Split(num, '.')| < 3 && r.Ok? ==> r.value.patch == 0
    ensures |Split(num, '.')| < 2 && r.Ok? ==> r.value.minor == 0
    ensures r.Err? && r.error.InvalidFormat? <==> |Split(num, '.')| > 3
    ensures var parts := Split(num, '.');
      r.Err? && r.error.InvalidMajor? <==> |parts| <= 3 && Atoi(parts[0]).Err?
    ensures var parts := Split(num, '.');
      r.Err? && r.error.InvalidMinor? <==> |parts| in {2, 3} && Atoi(parts[0]).Ok? && Atoi(parts[1]).Err?
    ensures var parts := Split(num, '.');
      r.Err? && r.error.InvalidPatch? <==>
        |parts| == 3 && Atoi(parts[0]).Ok? && Atoi(parts[1]).Ok? && Atoi(PatchDigits(parts[2])).Err?
    ensures r.Err? && r.error.InvalidMajor? ==> r.error.part == Split(num, '.')[0]
    ensures r.Err? && r.error.InvalidMinor? ==> r.error.part == Split(num, '.')[1]
    ensures r.Err? && r.error.InvalidPatch? ==> r.error.part == Split(num, '.')[2]
  {
    var parts := Split(num, '.');
    if |parts| > 3 then Err(InvalidFormat(num))
    else match Atoi(parts[0])
      case Err(_) => Err(InvalidMajor(parts[0]))
      case Ok(major) =>
        var minor := if |parts| > 1 then Atoi(parts[1]) else Ok(0);
        if minor.Err? then Err(InvalidMinor(parts[1]))
        else
          var patch := if |parts| > 2 then Atoi(PatchDigits(parts[2])) else Ok(0);
          if patch.Err? then Err(InvalidPatch(parts[2]))
          else Ok(VersionComponents(major, minor.value, patch.value, pre))
  }

  /** The first word with "version", then "v", then "V" removed. */
  function Stripped(version: string): string {
    TrimPrefix(TrimPrefix(StripVersionWord(FirstWord(version)), "v"), "V")
  }

  // ---------------------------------------------------------------------
  // Comparison

  /** The comparison of `compareVersions` once both sides parse: major,
      minor and patch in turn; then a release ranks above a pre-release;
      then pre-releases in string order. */
  function Compare(a: VersionComponents, b: VersionComponents): (r: int)
    ensures -1 <= r <= 1
    ensures a.major != b.major ==> (r == 1 <==> a.major > b.major) && r != 0
    ensures a.major == b.major && a.minor != b.minor ==> (r == 1 <==> a.minor > b.minor) && r != 0
    ensures a.major == b.major && a.minor == b.minor && a.patch != b.patch ==> (r == 1 <==> a.patch > b.patch) && r != 0
    ensures (a.major, a.minor, a.patch) == (b.major, b.minor, b.patch) && a.pre == "" && b.pre != "" ==> r == 1
    ensures (a.major, a.minor, a.patch) == (b.major, b.minor, b.patch) && a.pre != "" && b.pre != "" ==>
      (r == 1 <==> Less(b.pre, a.pre)) && (r == -1 <==> Less(a.pre, b.pre))
  {
    LessTrichotomy(a.pre, b.pre);
    if a.major > b.major then 1
    else if a.major < b.major then -1
    else if a.minor > b.minor then 1
    else if a.minor < b.minor then -1
    else if a.patch > b.patch then 1
    else if a.patch < b.patch then -1
    else if a.pre == "" && b.pre != "" then 1
    else if a.pre != "" && b.pre == "" then -1
    else if Less(b.pre, a.pre) then 1
    else if Less(a.pre, b.pre) then -1
    else 0
  }

  /** Two versions compare equal exactly when all their components agree. */
  lemma CompareZero(a: VersionComponents, b: VersionComponents)
    ensures Compare(a, b) == 0 <==> a == b
  {
    LessTrichotomy(a.pre, b.pre);
  }

  /** Swapping the arguments negates the result. */
  lemma CompareAntisymmetric(a: VersionComponents, b: VersionComponents)
    ensures Compare(b, a) == -Compare(a, b)
  {
    LessTrichotomy(a.pre, b.pre);
  }

  /** "Newer than" is transitive. */
  lemma CompareTransitive(a: VersionComponents, b: VersionComponents, c: VersionComponents)
    requires Compare(a, b) == 1 && Compare(b, c) == 1
    ensures Compare(a, c) == 1
  {
    if (a.major, a.minor, a.patch) == (b.major, b.minor, b.patch) == (c.major, c.minor, c.patch)
       && a.pre != "" && b.pre != "" && c.pre != "" {
      LessTransitive(c.pre, b.pre, a.pre);
    }
  }

  /** `compareVersions`: a parse error in the first, then in the second
      argument is returned as it is; otherwise the comparison. */
  function CompareVersions(v1: string, v2: string): (r: Result<int, VersionError>)
    ensures r.Ok? ==> -1 <= r.value <= 1
    ensures ParseVersion(v1).Err? ==> r == Err(ParseVersion(v1).error)
    ensures ParseVersion(v1).Ok? && ParseVersion(v2).Err? ==> r == Err(ParseVersion(v2).error)
    ensures ParseVersion(v1).Ok? && ParseVersion(v2).Ok? ==> r == Ok(Compare(ParseVersion(v1).value, ParseVersion(v2).value))
  {
    var vc1 :- ParseVersion(v1);
    var vc2 :- ParseVersion(v2);
    Ok(Compare(vc1, vc2))
  }

  /** `needsUpgrade`: the latest version is strictly newer than the current
      one; parse errors are returned. */
  function NeedsUpgrade(currentVersion: string, latestVersion: string): (r: Result<bool, VersionError>)
    ensures CompareVersions(latestVersion, currentVersion).Err? ==>
      r == Err(CompareVersions(latestVersion, currentVersion).error)
    ensures CompareVersions(latestVersion, currentVersion).Ok? ==>
      r == Ok(CompareVersions(latestVersion, currentVersion).value == 1)
  {
    match CompareVersions(latestVersion, currentVersion)
    case Err(e) => Err(e)
    case Ok(cmp) => Ok(cmp > 0)
  }

  /** Equal versions never need an upgrade, and of two different versions
      exactly one is an upgrade of the other. */
  lemma UpgradeIsStrict(v1: string, v2: string)
    requires ParseVersion(v1).Ok? && ParseVersion(v2).Ok?
    ensures NeedsUpgrade(v1, v2).value && NeedsUpgrade(v2, v1).value ==> false
    ensures !NeedsUpgrade(v1, v2).value && !NeedsUpgrade(v2, v1).value <==> ParseVersion(v1) == ParseVersion(v2)
  {
    CompareAntisymmetric(ParseVersion(v1).value, ParseVersion(v2).value);
    CompareZero(ParseVersion(v1).value, ParseVersion(v2).value);
  }

  // ---------------------------------------------------------------------
  // The canonical form

  /** "major.minor.patch". */
  function Dotted(c: VersionComponents): (r: string)
    requires c.major >= 0 && c.minor >= 0 && c.patch >= 0
    ensures forall k :: 0 <= k < |r| ==> IsDigit(r[k]) || r[k] == '.'
    ensures |r| >= 5 && IsDigit(r[0]) && IsDigit(r[|r| - 1])
  {
    Decimal(c.major) + "." + (Decimal(c.minor) + "." + Decimal(c.patch))
  }

  /** The canonical form: "major.minor.patch", with "-pre" when there is a
      pre-release. */
  function Format(c: VersionComponents): (r: string)
    requires c.major >= 0 && c.minor >= 0 && c.patch >= 0
    ensures Dotted(c) <= r
  {
    Dotted(c) + (if c.pre == "" then "" else "-" + c.pre)
  }

  /** A version with components in range and a pre-release without white
      space reads back from its canonical form. */
  lemma {:induction false} ParseFormat(c: VersionComponents)
    requires 0 <= c.major <= MaxInt64 && 0 <= c.minor <= MaxInt64 && 0 <= c.patch <= MaxInt64
    requires forall k :: 0 <= k < |c.pre| ==> !IsSpace(c.pre[k])
    ensures ParseVersion(Format(c)) == Ok(c)
  {
    var major, minor, patch := Decimal(c.major), Decimal(c.minor), Decimal(c.patch);
    FormatNoSpace(c);
    StrippedPlain(Format(c));
    FormatSplitPre(c);
    NotInDigits(major, '.');
    NotInDigits(minor, '.');
    NotInDigits(patch, '.');
    NotInDigits(patch, '+');
    NotInDigits(patch, '_');
    AtoiDecimal(c.major);
    AtoiDecimal(c.minor);
    AtoiDecimal(c.patch);
    NumericThree(major, minor, patch, c.pre);
  }

  /** Three dot-free parts that read as numbers give the version of
      those numbers. */
  lemma {:induction false} NumericThree(x: string, y: string, z: string, pre: string)
    requires '.' !in x && '.' !in y && '.' !in z
    requires Atoi(x).Ok? && Atoi(y).Ok? && Atoi(PatchDigits(z)).Ok?
    ensures ParseNumeric(x + "." + (y + "." + z), pre) ==
      Ok(VersionComponents(Atoi(x).value, Atoi(y).value, Atoi(PatchDigits(z)).value, pre))
  {
    SplitThree(x, y, z, '.');
  }

  /** A middle part that does not read as a number is the minor error,
      whatever the patch: "1.a.0" is rejected quoting "a". */
  lemma {:induction false} NonNumericMinor(x: string, y: string, z: string, pre: string)
    requires '.' !in x && '.' !in y && '.' !in z
    requires Atoi(x).Ok? && Atoi(y).Err?
    ensures ParseNumeric(x + "." + (y + "." + z), pre) == Err(InvalidMinor(y))
  {
    SplitThree(x, y, z, '.');
  }

  /** The canonical form holds no white space and starts with a digit. */
  lemma {:induction false} FormatNoSpace(c: VersionComponents)
    requires c.major >= 0 && c.minor >= 0 && c.patch >= 0
    requires forall k :: 0 <= k < |c.pre| ==> !IsSpace(c.pre[k])
    ensures IsDigit(Format(c)[0])
    ensures forall k :: 0 <= k < |Format(c)| ==> !IsSpace(Format(c)[k])
  {
    var f := Format(c);
    var d := Dotted(c);
    assert f[0] == d[0];
    forall k | 0 <= k < |f|
      ensures !IsSpace(f[k])
    {
      if k < |d| {
        assert f[k] == d[k];
      } else if k > |d| {
        assert f[k] == c.pre[k - |d| - 1];
      }
    }
  }

  /** Text without white space that starts with a digit is its own first
      word and carries no prefix. */
  lemma {:induction false} StrippedPlain(s: string)
    requires |s| > 0 && IsDigit(s[0])
    requires forall k :: 0 <= k < |s| ==> !IsSpace(s[k])
    ensures Stripped(s) == s
  {
    assert forall k :: 0 <= k < |s| ==> s[k] != ' ';
    FirstWordWhole(s);
    StrippedDigits(s);
  }

  /** A word without spaces and with no white space at either end is its
      own first word. */
  lemma {:induction false} FirstWordWhole(s: string)
    requires |s| > 0 && !IsSpace(s[0]) && !IsSpace(s[|s| - 1]) && ' ' !in s
    ensures FirstWord(s) == s
  {
    TrimSpaceUnchanged(s);
    assert IndexOf(s, ' ') == -1;
  }

  /** Text starting with a digit loses no prefix. */
  lemma {:induction false} StrippedDigits(s: string)
    requires FirstWord(s) == s && |s| > 0 && IsDigit(s[0])
    ensures Stripped(s) == s
  {
    if |s| >= 7 {
      assert ToLower(s[..7])[0] == LowerChar(s[0]);
    }
  }

  /** Only the first word counts: whatever follows the first space is
      ignored. */
  lemma {:induction false} ParseFirstWordOnly(s: string, rest: string)
    requires |s| > 0 && !IsSpace(s[0]) && !IsSpace(s[|s| - 1]) && ' ' !in s
    ensures ParseVersion(s + " " + rest) == ParseVersion(s)
  {
    FirstWordWhole(s);
    var x := s + " " + rest;
    TrimSpaceInfix(x);
    var l := TrimLeftSpace(x);
    assert x[0] == s[0];
    assert l == x;
    var t := TrimSpace(x);
    assert t == x[..|t|];
    assert x[|s| - 1] == s[|s| - 1];
    assert |t| >= |s|;
    assert t[..|s|] == s;
    if |t| == |s| {
      assert t == s;
      assert IndexOf(t, ' ') == -1;
    } else {
      assert t[|s|] == ' ';
      assert IndexOf(t, ' ') == |s| by {
        assert t[..|s|] == s;
      }
    }
    assert FirstWord(x) == s;
  }

  /** A "v", "V", "version" or "Version" prefix is ignored. */
  lemma {:induction false} ParsePrefix(w: string, s: string)
    requires w == "v" || w == "V" || w == "version" || w == "Version"
    requires |s| > 0 && IsDigit(s[0]) && !IsSpace(s[|s| - 1]) && ' ' !in s
    ensures ParseVersion(w + s) == ParseVersion(s)
  {
    FirstWordWhole(s);
    StrippedDigits(s);
    if |w| == 1 {
      LetterPrefix(w, s);
    } else {
      WordPrefix(w, s);
    }
  }

  lemma {:induction false} LetterPrefix(w: string, s: string)
    requires w == "v" || w == "V"
    requires |s| > 0 && IsDigit(s[0]) && !IsSpace(s[|s| - 1]) && ' ' !in s
    ensures Stripped(w + s) == s
  {
    var x := w + s;
    PrefixedWord(w, s);
    NotVersionWord(x);
    assert x[1..] == s;
    assert !("v" <= s) && !("V" <= s) by {
      assert s[0] != 'v' && s[0] != 'V';
    }
    if w == "v" {
      assert TrimPrefix(x, "v") == s;
    } else {
      assert !("v" <= x) && TrimPrefix(x, "V") == s;
    }
  }

  /** A prefix without white space keeps the text one word. */
  lemma {:induction false} PrefixedWord(w: string, s: string)
    requires |w| > 0 && forall k :: 0 <= k < |w| ==> !IsSpace(w[k])
    requires |s| > 0 && !IsSpace(s[|s| - 1]) && ' ' !in s
    ensures FirstWord(w + s) == w + s
  {
    var x := w + s;
    assert x[0] == w[0] && x[|x| - 1] == s[|s| - 1];
    assert ' ' !in w;
    assert ' ' !in x;
    FirstWordWhole(x);
  }

  /** Text whose second character is a digit does not start with "version". */
  lemma {:induction false} NotVersionWord(x: string)
    requires |x| >= 2 && IsDigit(x[1])
    ensures StripVersionWord(x) == x
  {
    if |x| >= 7 {
      assert ToLower(x[..7])[1] == LowerChar(x[1]);
    }
  }

  lemma {:induction false} WordPrefix(w: string, s: string)
    requires w == "version" || w == "Version"
    requires |s| > 0 && IsDigit(s[0]) && !IsSpace(s[|s| - 1]) && ' ' !in s
    ensures Stripped(w + s) == s
  {
    PrefixedWord(w, s);
    VersionWordStripped(w, s);
    StrippedAfterWord(w + s, s);
  }

  /** "version" in either spelling is removed whole. */
  lemma {:induction false} VersionWordStripped(w: string, s: string)
    requires w == "version" || w == "Version"
    ensures StripVersionWord(w + s) == s
  {
    var x := w + s;
    assert x[..7] == w;
    VersionLowered(w);
    assert x[4] == 'i';
    assert x[7..] == s;
  }

  /** After the version word, text starting with a digit loses nothing more. */
  lemma {:induction false} StrippedAfterWord(x: string, y: string)
    requires FirstWord(x) == x && StripVersionWord(x) == y && |y| > 0 && IsDigit(y[0])
    ensures Stripped(x) == y
  {
    assert !("v" <= y) && !("V" <= y) by {
      assert y[0] != 'v' && y[0] != 'V';
    }
  }

  /** Both spellings lower to "version". */
  lemma {:induction false} VersionLowered(w: string)
    requires w == "version" || w == "Version"
    ensures ToLower(w) == "version"
  {
    var l := ToLower(w);
    assert l[0] == 'v';
    forall k | 1 <= k < 7
      ensures l[k] == "version"[k]
    {
      assert w[k] == "version"[k];
    }
  }

  /** The canonical form splits at the '-' before the pre-release. */
  lemma {:induction false} FormatSplitPre(c: VersionComponents)
    requires c.major >= 0 && c.minor >= 0 && c.patch >= 0
    ensures SplitPre(Format(c)) == (Dotted(c), c.pre)
  {
    var f := Format(c);
    var d := Dotted(c);
    var r := SplitPre(f);
    if c.pre == "" {
      assert f == d;
    } else {
      assert f[|d|] == '-';
      assert f[|d| + 1..] == c.pre;
    }
    assert forall k :: 0 <= k < |d| ==> f[k] == d[k];
    assert r.0 == d;
  }
  /** Text without '-' or '_' has no pre-release. */
  lemma {:induction false} SplitPreNone(v: string)
    requires forall k :: 0 <= k < |v| ==> v[k] != '-' && v[k] != '_'
    ensures SplitPre(v) == (v, "")
  {
  }

  /** Digits and dots starting with a digit: the whole text is the numeric
      part, with no pre-release. */
  lemma {:induction false} PlainNumeric(v: string)
    requires |v| > 0 && IsDigit(v[0])
    requires forall k :: 0 <= k < |v| ==> IsDigit(v[k]) || v[k] == '.'
    ensures SplitPre(Stripped(v)) == (v, "")
  {
    assert forall k :: 0 <= k < |v| ==> !IsSpace(v[k]) && v[k] != '-' && v[k] != '_' by {
      forall k | 0 <= k < |v|
        ensures !IsSpace(v[k]) && v[k] != '-' && v[k] != '_'
      {
        assert IsDigit(v[k]) || v[k] == '.';
      }
    }
    StrippedPlain(v);
    SplitPreNone(v);
  }

  /** A single number is the major version; minor and patch are 0. */
  lemma {:induction false} ParseMajorOnly(major: nat)
    requires major <= MaxInt64
    ensures ParseVersion(Decimal(major)) == Ok(VersionComponents(major, 0, 0, ""))
  {
    var x := Decimal(major);
    PlainNumeric(x);
    AtoiDecimal(major);
    assert Split(x, '.') == [x] by {
      NotInDigits(x, '.');
      assert IndexOf(x, '.') == -1;
    }
  }

  /** Two numbers are the major and minor versions; the patch is 0. */
  lemma {:induction false} ParseMajorMinor(major: nat, minor: nat)
    requires major <= MaxInt64 && minor <= MaxInt64
    ensures ParseVersion(Decimal(major) + "." + Decimal(minor)) == Ok(VersionComponents(major, minor, 0, ""))
  {
    var x, y := Decimal(major), Decimal(minor);
    var xy := x + "." + y;
    assert SplitPre(Stripped(xy)) == (xy, "") by {
      forall k | 0 <= k < |xy|
        ensures IsDigit(xy[k]) || xy[k] == '.'
      {
        if k > |x| {
          assert xy[k] == y[k - |x| - 1];
        }
      }
      assert xy[0] == x[0];
      PlainNumeric(xy);
    }
    NotInDigits(x, '.');
    NotInDigits(y, '.');
    AtoiDecimal(major);
    AtoiDecimal(minor);
    NumericTwo(x, y, "");
  }

  /** Two dot-free parts that read as numbers are the major and minor
      versions. */
  lemma {:induction false} NumericTwo(x: string, y: string, pre: string)
    requires '.' !in x && '.' !in y
    requires Atoi(x).Ok? && Atoi(y).Ok?
    ensures ParseNumeric(x + "." + y, pre) == Ok(VersionComponents(Atoi(x).value, Atoi(y).value, 0, pre))
  {
    SplitCons(x, y, '.');
    assert IndexOf(y, '.') == -1;
  }

  /** Build information after '+' in the patch part is ignored. */
  lemma {:induction false} ParseBuild(c: VersionComponents, build: string)
    requires 0 <= c.major <= MaxInt64 && 0 <= c.minor <= MaxInt64 && 0 <= c.patch <= MaxInt64
    requires c.pre == ""
    requires forall k :: 0 <= k < |build| ==>
      !IsSpace(build[k]) && build[k] != '.' && build[k] != '-' && build[k] != '_'
    ensures ParseVersion(Dotted(c) + "+" + build) == Ok(c)
  {
    var major, minor, patch := Decimal(c.major), Decimal(c.minor), Decimal(c.patch);
    var z := patch + "+" + build;
    var v := major + "." + (minor + "." + z);
    assert Dotted(c) + "+" + build == v;
    assert SplitPre(Stripped(v)) == (v, "") by {
      BuildPlain(c, build);
    }
    PatchWithBuild(patch, build);
    assert '.' !in major && '.' !in minor by {
      NotInDigits(major, '.');
      NotInDigits(minor, '.');
    }
    AtoiDecimal(c.major);
    AtoiDecimal(c.minor);
    AtoiDecimal(c.patch);
    NumericThree(major, minor, z, "");
  }

  /** Digits followed by '+' and dot-free build information: the patch
      number is the digits. */
  lemma {:induction false} PatchWithBuild(patch: string, build: string)
    requires forall k :: 0 <= k < |patch| ==> IsDigit(patch[k])
    requires forall k :: 0 <= k < |build| ==> build[k] != '.'
    ensures PatchDigits(patch + "+" + build) == patch
    ensures '.' !in patch + "+" + build
  {
    var z := patch + "+" + build;
    forall k | 0 <= k < |patch|
      ensures z[k] !in {'+', '_'}
    {
      assert z[k] == patch[k];
    }
    assert z[|patch|] == '+';
    IndexAnyAt(z, {'+', '_'}, |patch|);
    assert z[..|patch|] == patch;
    NotInDigits(patch, '.');
  }

  /** A version with build information has no prefix and no pre-release. */
  lemma {:induction false} BuildPlain(c: VersionComponents, build: string)
    requires c.major >= 0 && c.minor >= 0 && c.patch >= 0
    requires forall k :: 0 <= k < |build| ==>
      !IsSpace(build[k]) && build[k] != '.' && build[k] != '-' && build[k] != '_'
    ensures var v := Dotted(c) + "+" + build; SplitPre(Stripped(v)) == (v, "")
  {
    var d := Dotted(c);
    var v := d + "+" + build;
    forall k | 0 <= k < |v|
      ensures !IsSpace(v[k]) && v[k] != '-' && v[k] != '_'
    {
      if k < |d| {
        assert v[k] == d[k];
      } else if k > |d| {
        assert v[k] == build[k - |d| - 1];
      }
    }
    assert v[0] == d[0];
    StrippedPlain(v);
    SplitPreNone(v);
  }

  /** A release ranks above its own pre-releases, and pre-releases of the
      same numbers are ordered by their text. */
  lemma {:induction false} ReleaseAbovePre(c: VersionComponents, pre1: string, pre2: string)
    requires pre1 != "" && pre2 != "" && Less(pre1, pre2)
    ensures Compare(c.(pre := ""), c.(pre := pre1)) == 1
    ensures Compare(c.(pre := pre2), c.(pre := pre1)) == 1
  {
    LessTrichotomy(pre1, pre2);
  }
}
