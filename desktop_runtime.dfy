/**
 * Small pieces of desktop runtime state and the pure helpers around them
 * (main.rs): the deduplicated PATH segment list built by `push_unique`, the
 * set of focused windows, the window-label counter, the macOS major version
 * mapping, and the filtering applied when the host list is saved.
 */
module DesktopRuntime {
  import opened Wrappers
  import opened Text
  import opened Json
  import ReleaseNotes

  // ---- PATH segments (`push_unique`) ----

  predicate NoDuplicates(s: seq<string>) {
    forall i, j :: 0 <= i < j < |s| ==> s[i] != s[j]
  }

  /** Non-empty, with no whitespace at either end: what `trim` leaves of a non-blank string. */
  predicate Trimmed(x: string) {
    x != [] && !IsWhitespace(x[0]) && !IsWhitespace(x[|x| - 1])
  }

  /** Every segment is non-empty and already trimmed. */
  predicate TrimmedSegments(s: seq<string>) {
    forall i :: 0 <= i < |s| ==> Trimmed(s[i])
  }

  /** The segment list after one push: the trimmed value goes at the end unless it is blank or already there. */
  function Pushed(segments: seq<string>, value: string): seq<string> {
    Added(segments, Trim(value))
  }

  /** The segment list with `t` appended unless it is empty or already there. */
  function Added(segments: seq<string>, t: string): seq<string> {
    if t == [] || t in segments then segments else segments + [t]
  }

  /** The segment list after pushing each of `values` in turn. */
  function PushedAll(segments: seq<string>, values: seq<string>): seq<string>
    decreases |values|
  {
    if values == [] then segments else PushedAll(Pushed(segments, values[0]), values[1..])
  }

  /**
   * A push never moves or drops an existing segment, keeps the list free of
   * duplicates and of blank or untrimmed entries, and adds the trimmed value
   * exactly when it is neither blank nor present.
   */
  lemma PushedKeepsOrder(segments: seq<string>, value: string)
    requires NoDuplicates(segments) && TrimmedSegments(segments)
    ensures var r := Pushed(segments, value);
      && NoDuplicates(r) && TrimmedSegments(r)
      && segments <= r
      && (forall x :: x in r <==> x in segments || (x == Trim(value) && x != []))
      && (|r| == |segments| + 1 <==> Trim(value) != [] && Trim(value) !in segments)
  {
    TrimEnds(value);
    AddedKeepsOrder(segments, Trim(value));
  }

  /** `PushedKeepsOrder` for the already trimmed value `t`. */
  lemma AddedKeepsOrder(segments: seq<string>, t: string)
    requires NoDuplicates(segments) && TrimmedSegments(segments)
    requires t == [] || Trimmed(t)
    ensures var r := Added(segments, t);
      && NoDuplicates(r) && TrimmedSegments(r)
      && segments <= r
      && (forall x :: x in r <==> x in segments || (x == t && x != []))
      && (|r| == |segments| + 1 <==> t != [] && t !in segments)
  {
    if t != [] && t !in segments {
      AppendKeepsSegments(segments, t);
    }
  }

  /** Appending a trimmed string that is not yet present keeps the list duplicate-free and trimmed. */
  lemma AppendKeepsSegments(segments: seq<string>, t: string)
    requires NoDuplicates(segments) && TrimmedSegments(segments)
    requires Trimmed(t) && t !in segments
    ensures NoDuplicates(segments + [t]) && TrimmedSegments(segments + [t])
  {
  }

  /**
   * After any sequence of pushes the list holds the old segments first, in
   * their old places, then new ones, and it is still free of duplicates and of
   * blank or untrimmed entries.
   */
  lemma {:induction false} PushedAllKeepsOrder(segments: seq<string>, values: seq<string>)
    requires NoDuplicates(segments) && TrimmedSegments(segments)
    ensures var r := PushedAll(segments, values);
      && NoDuplicates(r) && TrimmedSegments(r)
      && segments <= r
    decreases |values|
  {
    if values != [] {
      var next := Pushed(segments, values[0]);
      PushedKeepsOrder(segments, values[0]);
      PushedAllKeepsOrder(next, values[1..]);
    }
  }

  /** `x` is the non-blank trim of one of `values`. */
  predicate TrimOfSome(values: seq<string>, x: string) {
    exists k :: 0 <= k < |values| && x == Trim(values[k]) && x != []
  }

  /** The trims of a non-empty list of values: the first one's, then the rest's. */
  lemma TrimOfSomeCons(values: seq<string>, x: string)
    requires values != []
    ensures TrimOfSome(values, x) <==> (x == Trim(values[0]) && x != []) || TrimOfSome(values[1..], x)
  {
    if TrimOfSome(values[1..], x) {
      var k :| 0 <= k < |values[1..]| && x == Trim(values[1..][k]) && x != [];
      assert values[1..][k] == values[k + 1];
    }
    if TrimOfSome(values, x) {
      var k :| 0 <= k < |values| && x == Trim(values[k]) && x != [];
      if k > 0 {
        assert values[k] == values[1..][k - 1];
      }
    }
  }

  /** A string is in the list after a sequence of pushes exactly when it was there before or is the non-blank trim of some value. */
  lemma {:induction false} PushedAllMembers(segments: seq<string>, values: seq<string>, x: string)
    requires NoDuplicates(segments) && TrimmedSegments(segments)
    ensures x in PushedAll(segments, values) <==> x in segments || TrimOfSome(values, x)
    decreases |values|
  {
    if values != [] {
      var next := Pushed(segments, values[0]);
      PushedKeepsOrder(segments, values[0]);
      PushedAllMembers(next, values[1..], x);
      TrimOfSomeCons(values, x);
    }
  }

  /** The set holds exactly the list's entries. */
  ghost predicate SameMembers(seen: set<string>, segments: seq<string>) {
    forall x :: x in seen <==> x in segments
  }

  /** Adding the same string to both keeps them in step. */
  lemma SameMembersAppend(seen: set<string>, segments: seq<string>, t: string)
    requires SameMembers(seen, segments)
    ensures SameMembers(seen + {t}, segments + [t])
  {
  }

  /** The `seen` set and the `path_segments` list that `push_unique` updates together. */
  class PathSegments {
    var seen: set<string>
    var segments: seq<string>

    ghost predicate Valid()
      reads this
    {
      && NoDuplicates(segments)
      && TrimmedSegments(segments)
      && SameMembers(seen, segments)
    }

    constructor ()
      ensures Valid() && segments == [] && seen == {}
    {
      seen := {};
      segments := [];
    }

    /** `push_unique`: add the trimmed value unless it is blank or was seen before. */
    method PushUnique(value: string)
      requires Valid()
      modifies this
      ensures Valid()
      ensures segments == Pushed(old(segments), value)
      ensures seen == old(seen) + (if Trim(value) == [] then {} else {Trim(value)})
    {
      var trimmed := Trim(value);
      TrimEnds(value);
      AddedKeepsOrder(segments, trimmed);
      if trimmed == [] {
        assert seen + {} == seen;
        return;
      }
      if trimmed !in seen {
        SameMembersAppend(seen, segments, trimmed);
        seen := seen + {trimmed};
        segments := segments + [trimmed];
      } else {
        assert seen + {trimmed} == seen;
      }
    }

    /** The loop over the pieces of the inherited `PATH`: each piece is pushed in order. */
    method PushAll(values: seq<string>)
      requires Valid()
      modifies this
      ensures Valid()
      ensures segments == PushedAll(old(segments), values)
    {
      var i := 0;
      while i < |values|
        invariant 0 <= i <= |values|
        invariant Valid()
        invariant PushedAll(segments, values[i..]) == PushedAll(old(segments), values)
      {
        assert values[i..][1..] == values[i + 1..];
        PushUnique(values[i]);
        i := i + 1;
      }
    }
  }

  // ---- focused windows (`WindowFocusState`) ----

  /** The window events that touch the focus set. */
  datatype FocusEvent = Focused(window: string, focused: bool) | Destroyed(window: string)

  /**
   * The focus set after one event: only the event's window changes, and it is
   * focused afterwards exactly when the event says it gained focus.
   */
  function AfterEvent(focused: set<string>, e: FocusEvent): (r: set<string>)
    ensures e.window in r <==> e.Focused? && e.focused
    ensures forall other :: other != e.window ==> (other in r <==> other in focused)
  {
    match e
    case Focused(window, true) => focused + {window}
    case Focused(window, false) => focused - {window}
    case Destroyed(window) => focused - {window}
  }

  /** The focus set after a run of events, oldest first. */
  function AfterEvents(focused: set<string>, events: seq<FocusEvent>): set<string>
    decreases |events|
  {
    if events == [] then focused
    else AfterEvent(AfterEvents(focused, events[..|events| - 1]), events[|events| - 1])
  }

  /** Whether the most recent event about `window` left it focused; nothing when no event names it. */
  function LastFocus(events: seq<FocusEvent>, window: string): Option<bool>
    decreases |events|
  {
    if events == [] then None
    else
      var e := events[|events| - 1];
      if e.window == window then Some(e.Focused? && e.focused)
      else LastFocus(events[..|events| - 1], window)
  }

  /**
   * A window is focused after a run of events exactly when the last event
   * about it was a gain of focus, or no event named it and it was focused
   * before.
   */
  lemma {:induction false} FocusedIffLastEventGained(focused: set<string>, events: seq<FocusEvent>, window: string)
    ensures window in AfterEvents(focused, events)
      <==> LastFocus(events, window) == Some(true) || (LastFocus(events, window).None? && window in focused)
    decreases |events|
  {
    if events != [] {
      FocusedIffLastEventGained(focused, events[..|events| - 1], window);
    }
  }

  /** The set of focused window labels, updated from window events. */
  class WindowFocusState {
    var focusedWindows: set<string>

    constructor ()
      ensures focusedWindows == {}
    {
      focusedWindows := {};
    }

    /** `any_focused`: some window has focus. */
    function AnyFocused(): (r: bool)
      reads this
      ensures r <==> exists window :: window in focusedWindows
    {
      focusedWindows != {}
    }

    /** `set_focused`: record that `window` gained or lost focus. */
    method SetFocused(window: string, focused: bool)
      modifies this
      ensures focusedWindows == AfterEvent(old(focusedWindows), Focused(window, focused))
    {
      if focused {
        focusedWindows := focusedWindows + {window};
      } else {
        focusedWindows := focusedWindows - {window};
      }
    }

    /** `remove_window`: forget a destroyed window. */
    method RemoveWindow(window: string)
      modifies this
      ensures focusedWindows == AfterEvent(old(focusedWindows), Destroyed(window))
    {
      focusedWindows := focusedWindows - {window};
    }

    /** The window event handler's use of the focus state. */
    method OnWindowEvent(e: FocusEvent)
      modifies this
      ensures focusedWindows == AfterEvent(old(focusedWindows), e)
    {
      match e
      case Focused(window, focused) => SetFocused(window, focused);
      case Destroyed(window) => RemoveWindow(window);
    }
  }

  // ---- window labels (`next_window_label`) ----

  /** The counter is an `AtomicU64`, whose `fetch_add` wraps around. */
  const U64Modulus: nat := 0x1_0000_0000_0000_0000

  /** The label for counter value `n`: "main" for 1, "main-n" otherwise. */
  function WindowLabel(n: nat): string {
    if n == 1 then "main" else "main-" + NatToString(n)
  }

  /** Distinct counter values give distinct labels, and only value 1 gives "main". */
  lemma WindowLabelsDistinct(a: nat, b: nat)
    ensures WindowLabel(a) == WindowLabel(b) <==> a == b
    ensures WindowLabel(a) == "main" <==> a == 1
  {
    if a != b && a != 1 && b != 1 && WindowLabel(a) == WindowLabel(b) {
      assert NatToString(a) == WindowLabel(a)[5..];
      NatToStringInjective(a, b);
    }
  }

  /** The global window counter; it starts at 1. */
  class WindowCounter {
    var next: nat

    ghost predicate Valid()
      reads this
    {
      next < U64Modulus
    }

    constructor ()
      ensures Valid() && next == 1
    {
      next := 1;
    }

    /** `next_window_label`: the label for the current value, then the counter moves on (modulo 2^64). */
    method NextWindowLabel() returns (name: string)
      requires Valid()
      modifies this
      ensures Valid()
      ensures name == WindowLabel(old(next))
      ensures next == (old(next) + 1) % U64Modulus
    {
      var n := next;
      next := (next + 1) % U64Modulus;
      if n == 1 {
        name := "main";
      } else {
        name := "main-" + NatToString(n);
      }
    }
  }

  // ---- macOS major version (`macos_major_version`) ----

  /**
   * The major version from the output of `sw_vers -productVersion`: the first
   * dot-separated part must be a `u32` (otherwise nothing, without falling back
   * to the Darwin release); `10.x` gives the minor `x` (0 when the minor is
   * missing or not a number).
   */
  function ProductVersionMajor(raw: string): Option<nat> {
    var parts := Split(Trim(raw), '.');
    var major := ParseU32(parts[0]);
    if major.None? then None
    else
      var minor := if |parts| > 1 && ParseU32(parts[1]).Some? then ParseU32(parts[1]).value else 0;
      Some(if major.value == 10 then minor else major.value)
  }

  /** The Darwin major release number mapped to the macOS major: 20 and up less 9, 15 to 19 less 4. */
  function DarwinToMacos(darwin: nat): nat {
    if darwin >= 20 then darwin - 9 else if darwin >= 15 then darwin - 4 else darwin
  }

  /** The major version from the output of `sysctl -n kern.osrelease` or `uname -r`. */
  function OsReleaseMajor(raw: string): Option<nat> {
    var major := ParseU32(Split(Trim(raw), '.')[0]);
    if major.None? then None else Some(DarwinToMacos(major.value))
  }

  /**
   * `macos_major_version` with the command outputs as parameters: the product
   * version when `sw_vers` answered, else the Darwin release, else nothing.
   */
  function MacosMajorVersion(productVersion: Option<string>, osRelease: Option<string>): (r: Option<nat>)
    ensures r.Some? ==> productVersion.Some? || osRelease.Some?
    ensures r.Some? && r.value != 10 && productVersion.Some? ==> r.value <= U32Max
  {
    if productVersion.Some? then ProductVersionMajor(productVersion.value)
    else if osRelease.Some? then OsReleaseMajor(osRelease.value)
    else None
  }

  /** Apple's product version for a Darwin major release from 15 on: 10.11 to 10.15, then 11.0 onwards. */
  function AppleProductVersion(darwin: nat): string
    requires darwin >= 15
  {
    if darwin >= 20 then NatToString(darwin - 9) + ".0" else "10." + NatToString(darwin - 4)
  }

  /** `X.Y` with two decimal numbers survives trimming and splits into `X` and `Y`. */
  lemma TwoPartVersion(x: string, y: string)
    requires x != [] && y != [] && AllDigits(x) && AllDigits(y)
    ensures Trim(x + "." + y) == x + "." + y
    ensures Split(Trim(x + "." + y), '.') == [x, y]
  {
    var s := x + "." + y;
    assert s[0] == x[0] && IsDigit(x[0]);
    assert s[|s| - 1] == y[|y| - 1] && IsDigit(y[|y| - 1]);
    TrimUnchanged(s);
    ReleaseNotes.DigitsHaveNoDot(x);
    ReleaseNotes.DigitsHaveNoDot(y);
    ReleaseNotes.SplitAt(x, y);
  }

  /** A legacy `10.x` product version reports `x`; any other `major.minor` reports `major`. */
  lemma ProductVersionMapping(text: string, major: nat, minor: nat)
    requires major <= U32Max && minor <= U32Max
    requires text == NatToString(major) + "." + NatToString(minor)
    ensures ProductVersionMajor(text) == Some(if major == 10 then minor else major)
  {
    TwoPartVersion(NatToString(major), NatToString(minor));
    ParseU32RoundTrip(major);
    ParseU32RoundTrip(minor);
  }

  /** `D.m.p` with a decimal Darwin major `D` and any rest that does not end in whitespace gives the mapped `D`. */
  lemma OsReleaseMapping(darwin: nat, rest: string)
    requires darwin <= U32Max && rest != [] && !IsWhitespace(rest[|rest| - 1])
    ensures OsReleaseMajor(NatToString(darwin) + "." + rest) == Some(DarwinToMacos(darwin))
  {
    var x := NatToString(darwin);
    var s := x + "." + rest;
    assert s[0] == x[0] && IsDigit(x[0]);
    assert s[|s| - 1] == rest[|rest| - 1];
    TrimUnchanged(s);
    ReleaseNotes.DigitsHaveNoDot(x);
    ReleaseNotes.SplitAt(x, rest);
    ParseU32RoundTrip(darwin);
  }

  /** The two numerals the product version of a Darwin release needs. */
  lemma SmallNumerals()
    ensures NatToString(0) == "0" && NatToString(10) == "10"
  {
    assert NatToString(1) == "1";
  }

  /**
   * From Darwin 15 on, the Darwin fallback agrees with the product version
   * Apple ships with that release: both give the same major.
   */
  lemma DarwinAgreesWithProductVersion(darwin: nat, rest: string)
    requires 15 <= darwin <= U32Max && rest != [] && !IsWhitespace(rest[|rest| - 1])
    ensures MacosMajorVersion(None, Some(NatToString(darwin) + "." + rest))
      == MacosMajorVersion(Some(AppleProductVersion(darwin)), None)
  {
    OsReleaseMapping(darwin, rest);
    if darwin >= 20 {
      ModernProductVersion(darwin);
    } else {
      LegacyProductVersion(darwin);
    }
  }

  /** Darwin 20 onwards ships macOS `darwin - 9`.0, whose product version gives `darwin - 9`. */
  lemma ModernProductVersion(darwin: nat)
    requires 20 <= darwin <= U32Max
    ensures ProductVersionMajor(AppleProductVersion(darwin)) == Some(darwin - 9)
  {
    SmallNumerals();
    ProductVersionMapping(AppleProductVersion(darwin), darwin - 9, 0);
  }

  /** Darwin 15 to 19 ships macOS 10.`darwin - 4`, whose product version gives `darwin - 4`. */
  lemma LegacyProductVersion(darwin: nat)
    requires 15 <= darwin < 20
    ensures ProductVersionMajor(AppleProductVersion(darwin)) == Some(darwin - 4)
  {
    SmallNumerals();
    var minor := NatToString(darwin - 4);
    assert AppleProductVersion(darwin) == "10." + minor;
    assert "10." + minor == "10" + "." + minor;
    ProductVersionMapping(AppleProductVersion(darwin), 10, darwin - 4);
  }

  // ---- saved hosts (`write_desktop_hosts_config_to_disk`) ----

  /** The id of the built-in local host, which is never saved. */
  const LocalHostId := "local"

  datatype DesktopHost = DesktopHost(id: string, name: string, url: string)

  /**
   * The saved form of one host, or nothing when its trimmed id is empty or the
   * local id, or its URL does not normalise; a blank label becomes the URL.
   * `normalize` stands for `normalize_host_url`.
   */
  function SavedHost(h: DesktopHost, normalize: string -> Option<string>): (r: Option<DesktopHost>)
    ensures r.Some? <==> Trim(h.id) != [] && Trim(h.id) != LocalHostId && normalize(h.url).Some?
    ensures r.Some? ==> r.value.id == Trim(h.id) && r.value.url == normalize(h.url).value
    ensures r.Some? ==> r.value.name == (if IsBlank(h.name) then r.value.url else Trim(h.name))
  {
    TrimEmptyIffBlank(h.name);
    var id := Trim(h.id);
    if id == [] || id == LocalHostId then None
    else
      match normalize(h.url)
      case None => None
      case Some(url) => Some(DesktopHost(id, if Trim(h.name) == [] then url else Trim(h.name), url))
  }

  /** `filter_map`: the present results of `f` over `xs`, in order. */
  function FilterMap<A, B>(xs: seq<A>, f: A -> Option<B>): seq<B>
    decreases |xs|
  {
    if xs == [] then []
    else
      var rest := FilterMap(xs[1..], f);
      match f(xs[0])
      case None => rest
      case Some(y) => [y] + rest
  }

  /** Filtering works element by element, in order: the result for a concatenation is the concatenation of the results. */
  lemma {:induction false} FilterMapAppend<A, B>(a: seq<A>, b: seq<A>, f: A -> Option<B>)
    ensures FilterMap(a + b, f) == FilterMap(a, f) + FilterMap(b, f)
    decreases |a|
  {
    if a != [] {
      assert (a + b)[0] == a[0];
      assert (a + b)[1..] == a[1..] + b;
      FilterMapAppend(a[1..], b, f);
    } else {
      assert a + b == b;
    }
  }

  /** An element is in the result exactly when it is the present result for some input. */
  lemma {:induction false} FilterMapMembers<A, B>(xs: seq<A>, f: A -> Option<B>, y: B)
    ensures y in FilterMap(xs, f) <==> exists i :: 0 <= i < |xs| && f(xs[i]) == Some(y)
    decreases |xs|
  {
    if xs != [] {
      FilterMapMembers(xs[1..], f, y);
      if exists i :: 0 <= i < |xs| && f(xs[i]) == Some(y) {
        var i :| 0 <= i < |xs| && f(xs[i]) == Some(y);
        if i > 0 {
          assert xs[i] == xs[1..][i - 1];
        }
      }
      if exists i :: 0 <= i < |xs[1..]| && f(xs[1..][i]) == Some(y) {
        var i :| 0 <= i < |xs[1..]| && f(xs[1..][i]) == Some(y);
        assert xs[1..][i] == xs[i + 1];
      }
    }
  }

  /** When `f` maps each of its results to itself, filtering a filtered list changes nothing. */
  lemma {:induction false} FilterMapTwice<A>(xs: seq<A>, f: A -> Option<A>)
    requires forall x :: f(x).Some? ==> f(f(x).value) == f(x)
    ensures FilterMap(FilterMap(xs, f), f) == FilterMap(xs, f)
    decreases |xs|
  {
    if xs != [] {
      FilterMapTwice(xs[1..], f);
      var rest := FilterMap(xs[1..], f);
      match f(xs[0])
      case None =>
      case Some(y) =>
        assert ([y] + rest)[1..] == rest;
    }
  }

  /** The `filter_map` over the configured hosts. */
  function SavedHosts(hosts: seq<DesktopHost>, normalize: string -> Option<string>): seq<DesktopHost> {
    FilterMap(hosts, h => SavedHost(h, normalize))
  }

  /** A host is saved exactly when it is the saved form of some configured host, with a usable trimmed id. */
  lemma SavedHostsMembers(hosts: seq<DesktopHost>, normalize: string -> Option<string>, h: DesktopHost)
    ensures h in SavedHosts(hosts, normalize) <==> exists i :: 0 <= i < |hosts| && SavedHost(hosts[i], normalize) == Some(h)
    ensures h in SavedHosts(hosts, normalize) ==> h.id != [] && h.id != LocalHostId && Trim(h.id) == h.id
  {
    FilterMapMembers(hosts, h => SavedHost(h, normalize), h);
    if h in SavedHosts(hosts, normalize) {
      var i :| 0 <= i < |hosts| && SavedHost(hosts[i], normalize) == Some(h);
      TrimIdempotent(hosts[i].id);
    }
  }

  /** A normaliser whose results normalise to themselves and carry no surrounding whitespace. */
  ghost predicate StableNormalizer(normalize: string -> Option<string>) {
    forall u :: normalize(u).Some? ==> normalize(normalize(u).value) == normalize(u) && Trim(normalize(u).value) == normalize(u).value
  }

  /** With such a normaliser, a saved host saves as itself. */
  lemma SavedHostStable(h: DesktopHost, normalize: string -> Option<string>)
    requires StableNormalizer(normalize)
    requires SavedHost(h, normalize).Some?
    ensures SavedHost(SavedHost(h, normalize).value, normalize) == SavedHost(h, normalize)
  {
    var s := SavedHost(h, normalize).value;
    TrimIdempotent(h.id);
    TrimIdempotent(h.name);
    TrimEmptyIffBlank(h.name);
    TrimEmptyIffBlank(s.name);
    assert normalize(s.url) == Some(s.url);
  }

  /** Saving a list that was read back from a save changes nothing. */
  lemma SavingTwiceIsSavingOnce(hosts: seq<DesktopHost>, normalize: string -> Option<string>)
    requires StableNormalizer(normalize)
    ensures SavedHosts(SavedHosts(hosts, normalize), normalize) == SavedHosts(hosts, normalize)
  {
    var f := h => SavedHost(h, normalize);
    forall h | f(h).Some?
      ensures f(f(h).value) == f(h)
    {
      SavedHostStable(h, normalize);
    }
    FilterMapTwice(hosts, f);
  }

  /** `default_host_id`, trimmed, when it is present and not blank. */
  function SavedDefaultHostId(id: Option<string>): (r: Option<string>)
    ensures r.Some? <==> id.Some? && !IsBlank(id.value)
    ensures r.Some? ==> r.value == Trim(id.value) && r.value != []
  {
    if id.Some? then (TrimEmptyIffBlank(id.value); if Trim(id.value) != [] then Some(Trim(id.value)) else None)
    else None
  }

  /** One saved host as a JSON object, its name under `label`. */
  function HostValue(h: DesktopHost): (r: Value)
    ensures GetStr(r, "id") == Some(h.id) && GetStr(r, "label") == Some(h.name) && GetStr(r, "url") == Some(h.url)
  {
    Object(map["id" := Str(h.id), "label" := Str(h.name), "url" := Str(h.url)])
  }

  /** The `desktopHosts` array: one object per saved host, in order. */
  function HostsArray(saved: seq<DesktopHost>): (r: Value)
    ensures r.Array? && |r.items| == |saved|
    ensures forall i :: 0 <= i < |saved| ==> 
      GetStr(r.items[i], "id") == Some(saved[i].id) &&
      GetStr(r.items[i], "label") == Some(saved[i].name) &&
      GetStr(r.items[i], "url") == Some(saved[i].url)
  {
    Array(seq(|saved|, i requires 0 <= i < |saved| => HostValue(saved[i])))
  }

  /** The `desktopDefaultHostId` value: the trimmed id, or null when it is blank or absent. */
  function DefaultHostValue(defaultHostId: Option<string>): (r: Value)
    ensures r == Null <==> defaultHostId.None? || IsBlank(defaultHostId.value)
    ensures r != Null ==> r == Str(Trim(defaultHostId.value))
  {
    var defaultId := SavedDefaultHostId(defaultHostId);
    if defaultId.Some? then Str(defaultId.value) else Null
  }

  /**
   * The settings document after saving the host configuration: a non-object
   * document is replaced by an empty object, then `desktopHosts` and
   * `desktopDefaultHostId` are set.
   */
  function HostsSettings(root: Value, hosts: seq<DesktopHost>, defaultHostId: Option<string>, normalize: string -> Option<string>): Value {
    Object(FieldsOrEmpty(root)
      ["desktopHosts" := HostsArray(SavedHosts(hosts, normalize))]
      ["desktopDefaultHostId" := DefaultHostValue(defaultHostId)])
  }

  /**
   * Saving hosts keeps every other setting of an object document, and writes
   * the saved hosts in order and the default id (null when blank or absent).
   */
  lemma HostsSettingsShape(root: Value, hosts: seq<DesktopHost>, defaultHostId: Option<string>, normalize: string -> Option<string>)
    ensures var r := HostsSettings(root, hosts, defaultHostId, normalize);
      && r.Object?
      && r.fields.Keys == FieldsOrEmpty(root).Keys + {"desktopHosts", "desktopDefaultHostId"}
      && (forall key :: key in FieldsOrEmpty(root) && key != "desktopHosts" && key != "desktopDefaultHostId" ==> r.fields[key] == root.fields[key])
      && r.fields["desktopHosts"] == HostsArray(SavedHosts(hosts, normalize))
      && r.fields["desktopDefaultHostId"] == DefaultHostValue(defaultHostId)
  {
    SetTwoKeys(FieldsOrEmpty(root), "desktopHosts", HostsArray(SavedHosts(hosts, normalize)), "desktopDefaultHostId", DefaultHostValue(defaultHostId));
  }

  /** Setting two keys adds them and leaves every other key alone. */
  lemma SetTwoKeys(m: map<string, Value>, a: string, va: Value, b: string, vb: Value)
    requires a != b
    ensures var r := m[a := va][b := vb];
      && r.Keys == m.Keys + {a, b}
      && (forall key :: key in m && key != a && key != b ==> r[key] == m[key])
      && r[a] == va && r[b] == vb
  {
  }
}
