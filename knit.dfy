/**
 * The decisions main.go makes before patching: which required flag is reported missing,
 * and whether the installed git is recent enough.
 */
module Knit {
  import opened Wrappers
  import opened Errors
  import opened GoStrings

  // ---------------------------------------------------------------------------
  // Required flags

  /** The position of the first empty value, or |values| when none is empty. */
  function FirstEmpty(values: seq<string>): (i: nat)
    ensures i <= |values| && (i < |values| ==> values[i] == "")
    ensures forall j :: 0 <= j < i ==> values[j] != ""
    decreases |values|
  {
    if |values| == 0 then 0
    else if values[0] == "" then 0
    else
      var i := 1 + FirstEmpty(values[1..]);
      assert forall j :: 0 < j < |values| ==> values[j] == values[1..][j - 1];
      i
  }

  /** The required flags, in the order main checks them. */
  const RequiredFlags: seq<string> := ["repository-to-patch", "patch-repository", "version"]

  /** The message for a missing flag. */
  function Required(flag: string): string {
    flag + " is a required flag"
  }

  /** The message main logs before exiting, or "" when every required flag is set. */
  function MissingFlagMessage(releaseRepository: string, patchesRepository: string, version: string): (message: string)
    ensures message == "" <==> releaseRepository != "" && patchesRepository != "" && version != ""
  {
    if releaseRepository == "" then Required("repository-to-patch")
    else if patchesRepository == "" then Required("patch-repository")
    else if version == "" then Required("version")
    else ""
  }

  /** The reported flag is the first empty one in the order repository-to-patch, patch-repository, version. */
  lemma MissingFlagIsFirst(releaseRepository: string, patchesRepository: string, version: string)
    ensures var i := FirstEmpty([releaseRepository, patchesRepository, version]);
      MissingFlagMessage(releaseRepository, patchesRepository, version) ==
        if i == 3 then "" else Required(RequiredFlags[i])
  {
    var values := [releaseRepository, patchesRepository, version];
    assert values[1..] == [patchesRepository, version] && values[1..][1..] == [version];
    if releaseRepository == "" {
      assert FirstEmpty(values) == 0;
    } else if patchesRepository == "" {
      assert FirstEmpty(values) == 1;
    } else if version == "" {
      assert FirstEmpty(values[1..]) == 1;
      assert FirstEmpty(values) == 2;
    } else {
      assert FirstEmpty(values[1..][1..][1..]) == 0;
      assert FirstEmpty(values[1..][1..]) == 1;
      assert FirstEmpty(values[1..]) == 2;
      assert FirstEmpty(values) == 3;
    }
  }

  // ---------------------------------------------------------------------------
  // checkGitVersion

  /**
   * checkGitVersion from the extracted version string on (None: the regex did not
   * match): at least three dot-separated parts, the first two integers, and at
   * least 2.9.
   */
  function CheckGitVersion(matched: Option<string>): (r: Option<Error>)
    ensures r == Some(GitVersionUnknown) <==> matched.None? || |Split(matched.value, '.')| < 3
    ensures r.Some? && r.value.GitVersionUnparsable? ==>
      matched.Some? && |Split(matched.value, '.')| >= 3 &&
      var parts := Split(matched.value, '.');
      (Atoi(parts[0]).Failure? && r.value.cause == Atoi(parts[0]).error) ||
      (Atoi(parts[0]).Success? && Atoi(parts[1]).Failure? && r.value.cause == Atoi(parts[1]).error)
    ensures r.None? || r == Some(GitTooOld) ==>
      matched.Some? && |Split(matched.value, '.')| >= 3 &&
      var parts := Split(matched.value, '.');
      Atoi(parts[0]).Success? && Atoi(parts[1]).Success? &&
      (r.None? <==> Atoi(parts[0]).value > 2 || (Atoi(parts[0]).value == 2 && Atoi(parts[1]).value >= 9))
    ensures r.Some? ==> r.value.GitVersionUnknown? || r.value.GitVersionUnparsable? || r.value.GitTooOld?
  {
    if matched.None? then Some(GitVersionUnknown)
    else
      var parts := Split(matched.value, '.');
      if |parts| < 3 then Some(GitVersionUnknown)
      else match Atoi(parts[0])
        case Failure(e) => Some(GitVersionUnparsable(e))
        case Success(major) =>
          match Atoi(parts[1])
          case Failure(e) => Some(GitVersionUnparsable(e))
          case Success(minor) =>
            if major < 2 then Some(GitTooOld)
            else if major == 2 && minor < 9 then Some(GitTooOld)
            else None
  }

  /** The threshold on every version string that strconv.Itoa can write. */
  lemma CheckNumericVersion(major: int, minor: int, patch: int)
    requires MinInt64 <= major <= MaxInt64 && MinInt64 <= minor <= MaxInt64 && MinInt64 <= patch <= MaxInt64
    ensures CheckGitVersion(Some(Itoa(major) + "." + Itoa(minor) + "." + Itoa(patch))) ==
      if major < 2 || (major == 2 && minor < 9) then Some(GitTooOld) else None
  {
    var a, b, c := Itoa(major), Itoa(minor), Itoa(patch);
    NumeralHasNoSeparator(a, '.');
    NumeralHasNoSeparator(b, '.');
    NumeralHasNoSeparator(c, '.');
    SplitAtFirst(a, b + "." + c, '.');
    SplitAtFirst(b, c, '.');
    SplitWithoutSeparator(c, '.');
    assert a + "." + b + "." + c == a + ['.'] + (b + ['.'] + c);
    assert b + "." + c == b + ['.'] + c;
    assert Split(a + "." + b + "." + c, '.') == [a, b, c];
    AtoiItoa(major);
    AtoiItoa(minor);
  }

  /** A numeral holds only a sign and digits. */
  lemma NumeralHasNoSeparator(s: string, sep: char)
    requires IsNumeral(s) && !IsDigit(sep) && sep != '-' && sep != '+'
    ensures sep !in s
  {
    forall k | 0 <= k < |s| ensures s[k] != sep {
      if k > 0 && (s[0] == '+' || s[0] == '-') {
        assert s[k] == s[1..][k - 1];
      }
    }
  }

  /** git 2.8.0 is refused, as main_test.go expects. */
  lemma RejectsGit280()
    ensures CheckGitVersion(Some("2.8.0")) == Some(GitTooOld)
  {
    assert Itoa(2) + "." + Itoa(8) + "." + Itoa(0) == "2.8.0";
    CheckNumericVersion(2, 8, 0);
  }

  lemma AcceptsGit290()
    ensures CheckGitVersion(Some("2.9.0")).None?
  {
    assert Itoa(2) + "." + Itoa(9) + "." + Itoa(0) == "2.9.0";
    CheckNumericVersion(2, 9, 0);
  }

  lemma RejectsNonNumeric()
    ensures CheckGitVersion(Some("x.9.0")) == Some(GitVersionUnparsable(NumError("x", InvalidSyntax)))
  {
    SplitAtFirst("x", "9.0", '.');
    SplitAtFirst("9", "0", '.');
    SplitWithoutSeparator("0", '.');
    assert "x.9.0" == "x" + ['.'] + ("9" + ['.'] + "0");
    assert !IsDigit('x');
    assert !IsNumeral("x");
  }

  // ---------------------------------------------------------------------------
  // Extracting the version from `git --version`

  /** s[i..i+5] has the shape digit '.' digit '.' digit, what `\d\.\d\.\d` matches. */
  predicate WindowAt(s: string, i: nat) {
    i + 5 <= |s| && IsDigit(s[i]) && s[i + 1] == '.' && IsDigit(s[i + 2]) && s[i + 3] == '.' && IsDigit(s[i + 4])
  }

  /** The start of the rightmost window that starts below j. */
  function LastWindowBelow(s: string, j: nat): (r: Option<nat>)
    ensures r.None? <==> forall k :: 0 <= k < j ==> !WindowAt(s, k)
    ensures r.Some? ==> r.value < j && WindowAt(s, r.value) && forall k :: r.value < k < j ==> !WindowAt(s, k)
    decreases j
  {
    if j == 0 then None
    else if WindowAt(s, j - 1) then Some(j - 1)
    else LastWindowBelow(s, j - 1)
  }

  /**
   * What `.*(\d\.\d\.\d).*` captures in a text: the pattern cannot cross a newline, the
   * leftmost match starts on the first line holding a window, and the greedy leading
   * `.*` leaves the capture on the rightmost window of that line.
   */
  function RegexCapture(lines: seq<string>): (r: Option<string>)
    ensures r.None? <==> forall i, k :: 0 <= i < |lines| && 0 <= k < |lines[i]| ==> !WindowAt(lines[i], k)
    ensures r.Some? ==> |r.value| == 5
    ensures r.Some? ==> exists i: nat, k: nat :: i < |lines| && CapturedAt(lines, i, k) && r.value == lines[i][k..k + 5]
    decreases |lines|
  {
    if |lines| == 0 then None
    else match LastWindowBelow(lines[0], |lines[0]|)
      case Some(i) =>
        assert CapturedAt(lines, 0, i);
        Some(lines[0][i..i + 5])
      case None =>
        var rest := RegexCapture(lines[1..]);
        assert forall i :: 0 < i < |lines| ==> lines[i] == lines[1..][i - 1];
        if rest.Some? then
          var i: nat, k: nat :| i < |lines[1..]| && CapturedAt(lines[1..], i, k) && rest.value == lines[1..][i][k..k + 5];
          CapturedAtNext(lines, i, k);
          rest
        else rest
  }

  /**
   * Line i is the first line holding a window, and k starts its rightmost window: the
   * capture of `.*(\d\.\d\.\d).*` on those lines.
   */
  predicate CapturedAt(lines: seq<string>, i: nat, k: nat) {
    && i < |lines|
    && (forall j :: 0 <= j < i ==> LastWindowBelow(lines[j], |lines[j]|).None?)
    && LastWindowBelow(lines[i], |lines[i]|) == Some(k)
  }

  /** A capture in the lines after a window-free first line is a capture in all of them. */
  lemma CapturedAtNext(lines: seq<string>, i: nat, k: nat)
    requires |lines| > 0 && LastWindowBelow(lines[0], |lines[0]|).None?
    requires CapturedAt(lines[1..], i, k)
    ensures CapturedAt(lines, i + 1, k) && lines[i + 1] == lines[1..][i]
  {
    forall j | 0 <= j < i + 1 ensures LastWindowBelow(lines[j], |lines[j]|).None? {
      if j > 0 {
        assert lines[j] == lines[1..][j - 1];
      }
    }
  }

  /** The extraction as main.go performs it. */
  function RegexVersion(out: string): Option<string> {
    RegexCapture(Split(out, '\n'))
  }

  /** checkGitVersion as written. */
  function GitVersionCheckAsWritten(out: string): Option<Error> {
    CheckGitVersion(RegexVersion(out))
  }

  /**
   * The version token of `git --version`: the first line reads "git version <token> ...",
   * and the token is everything up to the next space.
   */
  function VersionToken(out: string): (r: Option<string>)
    ensures r.Some? ==> ' ' !in r.value
  {
    var first := Split(out, '\n')[0];
    if HasPrefix(first, "git version ") then Some(Split(TrimPrefix(first, "git version "), ' ')[0]) else None
  }

  /** checkGitVersion with the extraction it evidently intends. */
  function GitVersionCheck(out: string): Option<Error> {
    CheckGitVersion(VersionToken(out))
  }

  /** The version triple strconv.Itoa would write for a release. */
  function Release(major: nat, minor: nat, patch: nat): string {
    Itoa(major) + "." + Itoa(minor) + "." + Itoa(patch)
  }

  /** What `git --version` prints for a release: one line and its newline. */
  function ReleaseOutput(major: nat, minor: nat, patch: nat): string {
    "git version " + Release(major, minor, patch) + "\n"
  }

  /** A release triple holds no newline and no space. */
  lemma ReleaseIsOneToken(major: nat, minor: nat, patch: nat)
    ensures '\n' !in Release(major, minor, patch) && ' ' !in Release(major, minor, patch)
  {
    NumeralHasNoSeparator(Itoa(major), '\n');
    NumeralHasNoSeparator(Itoa(minor), '\n');
    NumeralHasNoSeparator(Itoa(patch), '\n');
    NumeralHasNoSeparator(Itoa(major), ' ');
    NumeralHasNoSeparator(Itoa(minor), ' ');
    NumeralHasNoSeparator(Itoa(patch), ' ');
  }

  /** The output splits into the version line and the empty piece after the newline. */
  lemma ReleaseOutputLines(major: nat, minor: nat, patch: nat)
    ensures Split(ReleaseOutput(major, minor, patch), '\n') == ["git version " + Release(major, minor, patch), ""]
  {
    var line := "git version " + Release(major, minor, patch);
    ReleaseIsOneToken(major, minor, patch);
    assert '\n' !in "git version ";
    assert '\n' !in line;
    assert ReleaseOutput(major, minor, patch) == line + ['\n'] + "";
    SplitAtFirst(line, "", '\n');
    SplitWithoutSeparator("", '\n');
  }

  /** In x.y.z with dot-free pieces, the only dots are the two separators. */
  lemma DotsOfTriple(x: string, y: string, z: string)
    requires '.' !in x && '.' !in y && '.' !in z
    ensures var s := x + "." + y + "." + z;
      forall j :: 0 <= j < |s| && s[j] == '.' ==> j == |x| || j == |x| + 1 + |y|
  {
    var s := x + "." + y + "." + z;
    forall j | 0 <= j < |s| ensures s[j] == '.' ==> j == |x| || j == |x| + 1 + |y| {
      if j < |x| {
        assert s[j] == x[j];
      } else if |x| < j < |x| + 1 + |y| {
        assert s[j] == y[j - |x| - 1];
      } else if j > |x| + 1 + |y| {
        assert s[j] == z[j - |x| - 2 - |y|];
      }
    }
  }

  /** A number from ten on takes at least two digits. */
  lemma TwoDigitNumeral(n: nat)
    requires n >= 10
    ensures |Itoa(n)| >= 2
  {
    assert Itoa(n) == NatString(n / 10) + [DigitChar(n % 10)];
  }

  /** A window needs two dots two apart; a two-digit minor puts the dots three or more apart. */
  lemma TwoDigitMinorLineHasNoWindow(major: nat, minor: nat, patch: nat)
    requires minor >= 10
    ensures var line := "git version " + Release(major, minor, patch);
      forall k :: 0 <= k < |line| ==> !WindowAt(line, k)
  {
    var x := "git version " + Itoa(major);
    assert "git version " + Release(major, minor, patch) == x + "." + Itoa(minor) + "." + Itoa(patch);
    PrefixHasNoDot(major);
    NumeralHasNoSeparator(Itoa(minor), '.');
    NumeralHasNoSeparator(Itoa(patch), '.');
    TwoDigitNumeral(minor);
    NoWindowInTriple(x, Itoa(minor), Itoa(patch));
  }

  lemma PrefixHasNoDot(major: nat)
    ensures '.' !in "git version " + Itoa(major)
  {
    assert '.' !in "git version ";
    NumeralHasNoSeparator(Itoa(major), '.');
  }

  /** x.y.z with dot-free pieces and a middle piece of two or more characters has no window. */
  lemma NoWindowInTriple(x: string, y: string, z: string)
    requires '.' !in x && '.' !in y && '.' !in z && |y| >= 2
    ensures forall k :: 0 <= k < |x + "." + y + "." + z| ==> !WindowAt(x + "." + y + "." + z, k)
  {
    DotsOfTriple(x, y, z);
    NoWindowBetweenDots(x + "." + y + "." + z, |x|, |x| + 1 + |y|);
  }

  /** With at most two dots, and those not two apart, a string has no window. */
  lemma NoWindowBetweenDots(s: string, p: nat, q: nat)
    requires forall j :: 0 <= j < |s| && s[j] == '.' ==> j == p || j == q
    requires p + 2 != q && q + 2 != p
    ensures forall k :: 0 <= k < |s| ==> !WindowAt(s, k)
  {
    forall k | 0 <= k < |s| ensures !WindowAt(s, k) {
      if k + 5 <= |s| {
        assert s[k + 1] != '.' || s[k + 3] != '.';
      }
    }
  }

  /** As written, the regex matches nothing in the output of a release with a two-digit minor. */
  lemma TwoDigitMinorHasNoMatch(major: nat, minor: nat, patch: nat)
    requires minor >= 10
    ensures RegexVersion(ReleaseOutput(major, minor, patch)).None?
  {
    var lines := ["git version " + Release(major, minor, patch), ""];
    ReleaseOutputLines(major, minor, patch);
    TwoDigitMinorLineHasNoWindow(major, minor, patch);
    assert forall i, k :: 0 <= i < |lines| && 0 <= k < |lines[i]| ==> !WindowAt(lines[i], k) by {
      assert |lines[1]| == 0;
    }
  }

  /** As written, every release with a two-digit minor, such as 2.10.0, is refused as unknown. */
  lemma AsWrittenRejectsTwoDigitMinor(major: nat, minor: nat, patch: nat)
    requires minor >= 10
    ensures GitVersionCheckAsWritten(ReleaseOutput(major, minor, patch)) == Some(GitVersionUnknown)
  {
    TwoDigitMinorHasNoMatch(major, minor, patch);
  }

  /** The output of git 2.10.0. */
  lemma Git2100Output()
    ensures ReleaseOutput(2, 10, 0) == "git version 2.10.0\n"
  {
    assert Itoa(2) == "2" && Itoa(10) == "10" && Itoa(0) == "0";
  }

  /** git 2.10.0 is refused by the check as written. */
  lemma AsWrittenRejectsGit2100()
    ensures GitVersionCheckAsWritten("git version 2.10.0\n") == Some(GitVersionUnknown)
  {
    Git2100Output();
    AsWrittenRejectsTwoDigitMinor(2, 10, 0);
  }

  /** A line ending in a single-digit d.d.d has its rightmost window there. */
  lemma LastWindowAtEnd(prefix: string, a: char, b: char, c: char)
    requires IsDigit(a) && IsDigit(b) && IsDigit(c)
    ensures var line := prefix + [a, '.', b, '.', c];
      LastWindowBelow(line, |line|) == Some(|prefix|)
  {
    var line := prefix + [a, '.', b, '.', c];
    var n := |prefix|;
    assert line[n] == a && line[n + 1] == '.' && line[n + 2] == b && line[n + 3] == '.' && line[n + 4] == c;
    assert WindowAt(line, n);
  }

  /** A single-digit number is written as its one digit. */
  lemma OneDigitNumeral(n: nat)
    requires n < 10
    ensures Itoa(n) == [DigitChar(n)]
  {
  }

  /** On a release whose three components are single digits, the regex captures the whole version. */
  lemma SingleDigitCapture(major: nat, minor: nat, patch: nat)
    requires major < 10 && minor < 10 && patch < 10
    ensures RegexVersion(ReleaseOutput(major, minor, patch)) == Some(Release(major, minor, patch))
  {
    var triple := Release(major, minor, patch);
    var line := "git version " + triple;
    OneDigitNumeral(major);
    OneDigitNumeral(minor);
    OneDigitNumeral(patch);
    assert triple == [DigitChar(major), '.', DigitChar(minor), '.', DigitChar(patch)];
    LastWindowAtEnd("git version ", DigitChar(major), DigitChar(minor), DigitChar(patch));
    ReleaseOutputLines(major, minor, patch);
    assert line[12..17] == triple;
  }

  /** On single-digit releases, the check as written agrees with the corrected one. */
  lemma AsWrittenAgreesOnSingleDigits(major: nat, minor: nat, patch: nat)
    requires major < 10 && minor < 10 && patch < 10
    ensures GitVersionCheckAsWritten(ReleaseOutput(major, minor, patch)) == GitVersionCheck(ReleaseOutput(major, minor, patch))
    ensures GitVersionCheckAsWritten(ReleaseOutput(major, minor, patch)).None? <==> major > 2 || (major == 2 && minor >= 9)
  {
    SingleDigitCapture(major, minor, patch);
    VersionTokenOfRelease(major, minor, patch);
    CheckAcceptsRelease(major, minor, patch);
  }

  /** The version token of any "git version M.m.p" line. */
  lemma VersionTokenOfRelease(major: nat, minor: nat, patch: nat)
    ensures VersionToken(ReleaseOutput(major, minor, patch)) == Some(Release(major, minor, patch))
  {
    var triple := Release(major, minor, patch);
    var line := "git version " + triple;
    ReleaseOutputLines(major, minor, patch);
    assert TrimPrefix(line, "git version ") == triple by {
      assert HasPrefix(line, "git version ");
      assert line[|"git version "|..] == triple;
    }
    ReleaseIsOneToken(major, minor, patch);
    SplitWithoutSeparator(triple, ' ');
  }

  /** With the token extraction, every release of git 2.9 or later is accepted and every earlier one refused. */
  lemma CheckAcceptsRelease(major: nat, minor: nat, patch: nat)
    requires major <= MaxInt64 && minor <= MaxInt64 && patch <= MaxInt64
    ensures GitVersionCheck(ReleaseOutput(major, minor, patch)) ==
      if major > 2 || (major == 2 && minor >= 9) then None else Some(GitTooOld)
  {
    VersionTokenOfRelease(major, minor, patch);
    CheckNumericVersion(major, minor, patch);
  }

  lemma CheckAcceptsGit2100()
    ensures GitVersionCheck("git version 2.10.0\n").None?
  {
    Git2100Output();
    CheckAcceptsRelease(2, 10, 0);
  }
}
