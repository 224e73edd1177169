/** The navigation bar's state (frontend/src/Components/Navbar/Navbar.jsx):
    the `mm:ss` timer display, which link is highlighted, the signed-in flag
    derived from the stored token, and logout. */
module Navbar {
  import opened Wrappers
  import opened Text

  /** The display before the timer first ticks: 25 minutes. */
  const INITIAL_DISPLAY := "25:00"
  const ROOT := "/"
  const LOGIN_PATH := "/login"

  // ---------------------------------------------------------------------------
  // Timer display
  // ---------------------------------------------------------------------------

  /** `String(n).padStart(2, "0")`: a count rendered with at least two
      digits, a zero added on the left of a single digit. */
  function Pad2(n: nat): (r: string)
    ensures AllDigits(r) && DecimalValue(r) == n
    ensures |r| >= 2
    ensures n < 100 ==> |r| == 2
  {
    var d := NatToDecimal(n);
    DecimalRoundTrip(n);
    if n < 10 then
      LeadingZerosKeepValue(1, d);
      Repeat('0', 1) + d
    else
      assert |d| >= 2;
      assert n < 100 ==> |d| == 2 by {
        if n < 100 {
          DecimalLength(n, 2);
        }
      }
      d
  }

  /** The rendering is `padStart` with '0' to width 2 of `String(n)`. */
  lemma Pad2IsPadStart(n: nat)
    ensures Pad2(n) == PadStart(NatToDecimal(n), 2, '0')
  {
  }

  /** `${minutes}:${seconds}` for `timeLeft` seconds: the minutes part has at
      least two digits and reads back as `t / 60`, the seconds part has
      exactly two and reads back as `t % 60`. */
  function FormatTime(t: nat): (r: string)
    ensures |r| >= 5 && r[|r| - 3] == ':'
    ensures AllDigits(r[..|r| - 3]) && DecimalValue(r[..|r| - 3]) == t / 60
    ensures AllDigits(r[|r| - 2..]) && DecimalValue(r[|r| - 2..]) == t % 60
  {
    var minutes := Pad2(t / 60);
    var seconds := Pad2(t % 60);
    JoinAtColon(minutes, seconds);
    minutes + ":" + seconds
  }

  /** Joining two parts with a colon: the last three characters are the colon
      and the two-character right part. */
  lemma JoinAtColon(left: string, right: string)
    requires |right| == 2
    ensures var r := left + ":" + right;
      && |r| == |left| + 3 && r[|r| - 3] == ':'
      && r[..|r| - 3] == left && r[|r| - 2..] == right
  {
  }

  /** Reads an `m:ss` display back into seconds; `None` when malformed. */
  function ParseTime(s: string): (r: Option<nat>)
    ensures r.Some? ==> |s| >= 4 && s[|s| - 3] == ':'
  {
    if |s| >= 4 && s[|s| - 3] == ':' && AllDigits(s[..|s| - 3]) && AllDigits(s[|s| - 2..]) then
      var seconds := DecimalValue(s[|s| - 2..]);
      if seconds < 60 then Some(DecimalValue(s[..|s| - 3]) * 60 + seconds) else None
    else None
  }

  /** Parsing a joined display reads the two parts. */
  lemma ParseJoined(left: string, right: string)
    requires |left| >= 1 && AllDigits(left)
    requires |right| == 2 && AllDigits(right) && DecimalValue(right) < 60
    ensures ParseTime(left + ":" + right) == Some(DecimalValue(left) * 60 + DecimalValue(right))
  {
    JoinAtColon(left, right);
  }

  /** The display determines the remaining time: reading it back gives `t`. */
  lemma FormatTimeRoundTrip(t: nat)
    ensures ParseTime(FormatTime(t)) == Some(t)
  {
    ReadsBackAs(t, Pad2(t / 60), Pad2(t % 60));
  }

  lemma ReadsBackAs(t: nat, minutes: string, seconds: string)
    requires |minutes| >= 1 && AllDigits(minutes) && DecimalValue(minutes) == t / 60
    requires |seconds| == 2 && AllDigits(seconds) && DecimalValue(seconds) == t % 60
    ensures ParseTime(minutes + ":" + seconds) == Some(t)
  {
    ParseJoined(minutes, seconds);
  }

  /** Different remaining times never show the same display. */
  lemma FormatTimeInjective(t1: nat, t2: nat)
    requires FormatTime(t1) == FormatTime(t2)
    ensures t1 == t2
  {
    FormatTimeRoundTrip(t1);
    FormatTimeRoundTrip(t2);
  }

  /** The initial display is what a full 25-minute timer renders. */
  lemma InitialDisplayIsFullTimer()
    ensures FormatTime(25 * 60) == INITIAL_DISPLAY
  {
    TwentyFivePadded();
    ZeroPadded();
  }

  lemma TwentyFivePadded()
    ensures Pad2(25) == "25"
  {
    assert NatToDecimal(25) == "25" by {
      assert NatToDecimal(2) == "2";
    }
  }

  lemma ZeroPadded()
    ensures Pad2(0) == "00"
  {
    assert NatToDecimal(0) == "0";
    assert Repeat('0', 1) == "0";
  }

  // ---------------------------------------------------------------------------
  // Navigation state
  // ---------------------------------------------------------------------------

  /** What the browser holds: the stored token (`localStorage`) and the path. */
  datatype Browser = Browser(token: Option<string>, pathname: string)

  datatype NavState = NavState(
    displayTime: string,
    isAuthenticated: bool,
    menuOpen: bool,
    userMenuOpen: bool)

  /** `!!localStorage.getItem("token")`: a present, non-empty token. */
  predicate HasToken(b: Browser) {
    b.token.Some? && b.token.value != ""
  }

  /** The state on mount. */
  function Mount(b: Browser): (n: NavState)
    ensures n.isAuthenticated <==> HasToken(b)
    ensures n.displayTime == INITIAL_DISPLAY
    ensures !n.menuOpen && !n.userMenuOpen
  {
    NavState(INITIAL_DISPLAY, HasToken(b), false, false)
  }

  /** The `storage` listener re-reads the token. */
  function OnStorageChange(n: NavState, b: Browser): (r: NavState)
    ensures r.isAuthenticated <==> HasToken(b)
    ensures r == n.(isAuthenticated := r.isAuthenticated)
  {
    n.(isAuthenticated := HasToken(b))
  }

  /** The interval callback: a running timer shows `timeLeft`; a stopped one
      leaves the display as it was. */
  function OnTimerTick(n: NavState, timeLeft: nat, isRunning: bool): (r: NavState)
    ensures isRunning ==> ParseTime(r.displayTime) == Some(timeLeft)
    ensures !isRunning ==> r == n
    ensures r == n.(displayTime := r.displayTime)
  {
    if isRunning then
      FormatTimeRoundTrip(timeLeft);
      n.(displayTime := FormatTime(timeLeft))
    else n
  }

  /** `handleLogout`: the token is removed, the flag cleared, the user menu
      closed, and the browser sent to the login page. */
  function Logout(n: NavState, b: Browser): (r: (NavState, Browser))
    ensures r.1.token.None? && r.1.pathname == LOGIN_PATH
    ensures !r.0.isAuthenticated && !r.0.userMenuOpen
    ensures r.0.displayTime == n.displayTime && r.0.menuOpen == n.menuOpen
  {
    (n.(isAuthenticated := false, userMenuOpen := false), Browser(None, LOGIN_PATH))
  }

  /** The flag agrees with the stored token. */
  predicate InSync(n: NavState, b: Browser) {
    n.isAuthenticated <==> HasToken(b)
  }

  /** Mounting, storage events, timer ticks and logout all keep the flag in
      step with the stored token; after logout it reads signed out. */
  lemma FlagTracksToken(n: NavState, b: Browser, timeLeft: nat, isRunning: bool)
    requires InSync(n, b)
    ensures InSync(Mount(b), b)
    ensures InSync(OnStorageChange(n, b), b)
    ensures InSync(OnTimerTick(n, timeLeft, isRunning), b)
    ensures var (n', b') := Logout(n, b); InSync(n', b') && !HasToken(b')
  {
  }

  // ---------------------------------------------------------------------------
  // Active link
  // ---------------------------------------------------------------------------

  /** `isActiveLink(link)`: the root link only on the root path; any other
      link on every path it prefixes. */
  predicate IsActiveLink(link: string, pathname: string) {
    if link == ROOT then pathname == ROOT else StartsWith(pathname, link)
  }

  /** Two prefixes of one path: the shorter begins the longer. */
  lemma CommonPrefix(pathname: string, a: string, b: string)
    requires StartsWith(pathname, a) && StartsWith(pathname, b) && |a| <= |b|
    ensures StartsWith(b, a)
  {
    assert b[..|a|] == pathname[..|b|][..|a|];
  }

  /** No link of the list begins with another one. */
  predicate PrefixFree(links: seq<string>) {
    forall i, j :: 0 <= i < |links| && 0 <= j < |links| && i != j ==> !StartsWith(links[j], links[i])
  }

  /** Among links none of which begins with another, at most one is
      highlighted on any path. */
  lemma AtMostOneActive(links: seq<string>, pathname: string, i: nat, j: nat)
    requires PrefixFree(links)
    requires i < |links| && j < |links|
    requires IsActiveLink(links[i], pathname) && IsActiveLink(links[j], pathname)
    ensures i == j
  {
    var a, b := links[i], links[j];
    if i != j && a != ROOT && b != ROOT {
      if |a| <= |b| {
        CommonPrefix(pathname, a, b);
      } else {
        CommonPrefix(pathname, b, a);
      }
    }
  }

  /** The `link` of every entry of `navItems` that is not external. */
  const NAV_LINKS := ["/", "#features", "#about", "#contact"]

  /** On a browser path, which always begins with "/", the Home entry is
      highlighted exactly on "/" and the in-page section entries never are. */
  lemma NavHighlight(pathname: string)
    requires |pathname| > 0 && pathname[0] == '/'
    ensures forall k :: 0 <= k < |NAV_LINKS| ==> (IsActiveLink(NAV_LINKS[k], pathname) <==> k == 0 && pathname == ROOT)
  {
    forall k | 1 <= k < |NAV_LINKS| ensures !IsActiveLink(NAV_LINKS[k], pathname) {
      assert NAV_LINKS[k][0] == '#';
    }
  }
}
