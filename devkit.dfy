/** Shaman's DevKit: an overlay panel that reads the host's state (version
    banner, theme class, data-barrier toggle, accent colour, night mode, the
    browsing iframe and the list of registered mods) and shows it.

    The DOM lookups are inputs here, gathered in `HostView`; the scraping and
    labelling are functions of it, and the mod's own mutable state (the
    `devState` record, the overlay's display and the host menu's children) is
    held in classes whose methods say what they change. */
module DevKit {
  import opened Wrappers
  import opened Strings
  import Seqs

  const DetectingVersion: string := "Detecting..."
  const UnknownBuild: string := "Unknown TGBrowser Build"
  const RitualPrefix: string := "ritual-"
  /** The fallback theme name, as written before it is upper-cased. */
  const DefaultRitual: string := "Default (MD2)"
  const DarkModeClass: string := "dark-mode"
  const IdleUrl: string := "TGHome (Idle)"
  const NoSandbox: string := "N/A"
  const SecureScheme: string := "https://"
  const NoMods: string := "No external mods loaded."
  const MenuItemId: string := "dk-menu-item"
  const Block: string := "block"
  const Hidden: string := "none"

  /** The browsing iframe `#browser`: its `src` and its `sandbox` attribute
      (`getAttribute` gives null when the attribute is absent). */
  datatype Frame = Frame(src: string, sandbox: Option<string>)

  /** What the mod reads from the host page and the registration bus. */
  datatype HostView = HostView(
    headerSpans: seq<string>,       // text of each `.menu-header span`, in document order
    title: string,                  // `document.title`
    bodyClasses: seq<string>,       // `document.body.classList`, in order
    barrierToggle: Option<bool>,    // `checked` of `#dataBarrierToggle`, if present
    primaryColor: string,           // computed `--primary` before trimming
    iframe: Option<Frame>,          // `#browser`, if present
    plugs: Option<seq<string>>)     // `window.TGMoLink?.plugs`, if defined

  /** `devState.browserFeatures`. */
  datatype Features = Features(
    ritual: string,
    dataBarrier: bool,
    nightMode: bool,
    chroma: string,
    url: string,
    sandbox: Option<string>)

  /** The texts `renderPanelContent` writes into the panel. */
  datatype Panel = Panel(
    barrierLabel: string,
    sandboxLevel: string,
    thread: string,
    ritual: string,
    nightLabel: string,
    chroma: string,
    plugCount: nat,
    plugList: string)

  // ------------------------------------------------------------ version

  /** A header span whose text names a version: it holds `v` and `Beta`. */
  predicate IsVersionText(t: string)
    ensures IsVersionText(t) <==> Occurs(t, "v") && Occurs(t, "Beta")
  {
    Contains(t, "v") && Contains(t, "Beta")
  }

  /** Index of the last version-like header span, or -1 when there is none. */
  function LastVersionIndex(spans: seq<string>): (r: int)
    ensures -1 <= r < |spans|
    ensures r == -1 ==> forall i :: 0 <= i < |spans| ==> !IsVersionText(spans[i])
    ensures r != -1 ==> IsVersionText(spans[r])
    ensures forall j :: r < j < |spans| ==> !IsVersionText(spans[j])
  {
    if spans == [] then -1
    else
      var n := |spans| - 1;
      if IsVersionText(spans[n]) then n
      else
        var prefix := spans[..n];
        assert forall i :: 0 <= i < n ==> prefix[i] == spans[i];
        LastVersionIndex(prefix)
  }

  /** The trimmed text of the last version-like header span, if any. */
  function LastVersionSpan(spans: seq<string>): (r: Option<string>)
    ensures r.None? <==> forall i :: 0 <= i < |spans| ==> !IsVersionText(spans[i])
    ensures r.Some? ==> r.value == Trim(spans[LastVersionIndex(spans)]) && IsVersionText(r.value)
  {
    var k := LastVersionIndex(spans);
    if k == -1 then None else TrimKeepsVersion(spans[k]); Some(Trim(spans[k]))
  }

  /** Extending the scanned prefix by one span: that span wins when it is
      version-like, otherwise the earlier result stands. */
  lemma LastVersionSpanExtend(spans: seq<string>, i: nat)
    requires i < |spans|
    ensures LastVersionSpan(spans[..i + 1]) ==
      if IsVersionText(spans[i]) then Some(Trim(spans[i])) else LastVersionSpan(spans[..i])
  {
    var longer := spans[..i + 1];
    assert longer[..i] == spans[..i];
    assert longer[i] == spans[i];
  }

  /** The `forEach` over the header spans in `detectRealVersion`: each
      version-like span overwrites what an earlier one found. */
  method ScanHeaderSpans(spans: seq<string>) returns (found: Option<string>)
    ensures found == LastVersionSpan(spans)
  {
    found := None;
    var i := 0;
    while i < |spans|
      invariant 0 <= i <= |spans|
      invariant found == LastVersionSpan(spans[..i])
    {
      LastVersionSpanExtend(spans, i);
      if IsVersionText(spans[i]) {
        found := Some(Trim(spans[i]));
      }
      i := i + 1;
    }
    assert spans[..i] == spans;
  }

  /** Trimming a version-like text keeps it version-like (and so non-empty). */
  lemma TrimKeepsVersion(t: string)
    requires IsVersionText(t)
    ensures IsVersionText(Trim(t))
  {
    TrimKeepsWord(t, "v");
    TrimKeepsWord(t, "Beta");
  }

  /** `detectRealVersion`'s choice: the last version-like span (trimmed);
      failing that the title; failing that a fixed name. JavaScript treats the
      empty string as missing at both fallbacks. */
  function ResolveVersion(spans: seq<string>, title: string): (r: string)
    ensures r != ""
    ensures LastVersionIndex(spans) != -1 ==>
      IsVersionText(r) && r == Trim(spans[LastVersionIndex(spans)])
    ensures (forall i :: 0 <= i < |spans| ==> !IsVersionText(spans[i])) ==>
      r == (if title != "" then title else UnknownBuild)
  {
    var found := LastVersionSpan(spans);
    if found.Some? then
      found.value
    else if title != "" then title else UnknownBuild
  }

  // ------------------------------------------------------------ features

  /** The first body class that names a theme (`find` with `startsWith`). */
  function FirstRitualClass(classes: seq<string>): (r: Option<string>)
    ensures r.None? <==> forall i :: 0 <= i < |classes| ==> !StartsWith(classes[i], RitualPrefix)
    ensures r.Some? ==> exists i :: (0 <= i < |classes| && classes[i] == r.value
      && StartsWith(r.value, RitualPrefix)
      && forall j :: 0 <= j < i ==> !StartsWith(classes[j], RitualPrefix))
  {
    if classes == [] then None
    else if StartsWith(classes[0], RitualPrefix) then Some(classes[0])
    else
      var r := FirstRitualClass(classes[1..]);
      assert forall i :: 0 < i < |classes| ==> classes[1..][i - 1] == classes[i];
      r
  }

  /** The theme label: the first `ritual-` class without its prefix,
      upper-cased, or `DEFAULT (MD2)` when the body has none. */
  function RitualLabel(classes: seq<string>): (r: string)
    ensures FirstRitualClass(classes).Some? ==>
      r == Upper(FirstRitualClass(classes).value[|RitualPrefix|..])
    ensures FirstRitualClass(classes).None? ==> r == "DEFAULT (MD2)"
  {
    var ritual := FirstRitualClass(classes).GetOr(DefaultRitual);
    if FirstRitualClass(classes).Some? then
      RemoveFirstOfPrefix(ritual, RitualPrefix);
      Upper(RemoveFirst(ritual, RitualPrefix))
    else
      NotOccursWithoutFirstChar(DefaultRitual, RitualPrefix);
      assert Upper(DefaultRitual) == "DEFAULT (MD2)";
      Upper(RemoveFirst(ritual, RitualPrefix))
  }

  /** The feature snapshot `updateBrowserState` records, with the fallbacks
      for the elements that may be missing. */
  function Snapshot(host: HostView): (f: Features)
    ensures f.ritual == RitualLabel(host.bodyClasses)
    ensures host.barrierToggle.None? ==> !f.dataBarrier
    ensures host.barrierToggle.Some? ==> f.dataBarrier == host.barrierToggle.value
    ensures f.nightMode <==> DarkModeClass in host.bodyClasses
    ensures f.chroma == Trim(host.primaryColor)
    ensures host.iframe.None? ==> f.url == IdleUrl && f.sandbox == Some(NoSandbox)
    ensures host.iframe.Some? ==> f.url == host.iframe.value.src && f.sandbox == host.iframe.value.sandbox
  {
    Features(
      ritual := RitualLabel(host.bodyClasses),
      dataBarrier := host.barrierToggle.GetOr(false),
      nightMode := DarkModeClass in host.bodyClasses,
      chroma := Trim(host.primaryColor),
      url := if host.iframe.Some? then host.iframe.value.src else IdleUrl,
      sandbox := if host.iframe.Some? then host.iframe.value.sandbox else Some(NoSandbox))
  }

  // ------------------------------------------------------------ panel

  /** One line of the mod list. */
  function PlugEntry(plug: string): string
  {
    "<div>\U{2022} " + plug + "</div>"
  }

  /** `plugs.map(p => entry)`. */
  function PlugEntries(plugs: seq<string>): (r: seq<string>)
    ensures |r| == |plugs|
    ensures forall i :: 0 <= i < |plugs| ==> r[i] == PlugEntry(plugs[i])
  {
    if plugs == [] then [] else [PlugEntry(plugs[0])] + PlugEntries(plugs[1..])
  }

  /** `join('')`. */
  function Concat(parts: seq<string>): (r: string)
    ensures parts == [] ==> r == ""
    ensures parts != [] ==> StartsWith(r, parts[0])
  {
    if parts == [] then "" else parts[0] + Concat(parts[1..])
  }

  /** Every part shows up in the concatenation. */
  lemma {:induction false} ConcatHoldsPart(parts: seq<string>, i: nat)
    requires i < |parts|
    ensures Occurs(Concat(parts), parts[i])
  {
    var c := Concat(parts);
    if i == 0 {
      assert c[..|parts[0]|] == parts[0];
      assert OccursAt(c, parts[0], 0);
    } else {
      ConcatHoldsPart(parts[1..], i - 1);
      var rest := Concat(parts[1..]);
      var k :| OccursAt(rest, parts[i], k);
      var w := parts[i];
      var o := |parts[0]|;
      assert c == parts[0] + rest;
      assert c[o + k..o + k + |w|] == rest[k..k + |w|];
      assert OccursAt(c, w, o + k);
    }
  }

  /** The mod list: one entry per plug, in order, or a fixed message when no
      plug is registered. */
  function PlugList(plugs: seq<string>): (r: string)
    ensures plugs == [] ==> r == NoMods
    ensures plugs != [] ==> r == Concat(PlugEntries(plugs))
  {
    if |plugs| != 0 then Concat(PlugEntries(plugs)) else NoMods
  }

  /** Every registered plug's name appears in the rendered list. */
  lemma PlugListNamesEveryPlug(plugs: seq<string>, i: nat)
    requires i < |plugs|
    ensures Occurs(PlugList(plugs), plugs[i])
  {
    var es := PlugEntries(plugs);
    ConcatHoldsPart(es, i);
    var c := Concat(es);
    var k :| OccursAt(c, es[i], k);
    var e := es[i];
    var n := |plugs[i]|;
    var o := |"<div>\U{2022} "|;
    assert e == "<div>\U{2022} " + plugs[i] + "</div>";
    assert e[o..o + n] == plugs[i];
    assert c[k..k + |e|] == e;
    SliceOfSlice(c, k, k + |e|, k + o, n);
    assert OccursAt(c, plugs[i], k + o);
  }

  /** A non-empty list never reads as the empty-list message. */
  lemma PlugListNotEmptyMessage(plugs: seq<string>)
    requires plugs != []
    ensures PlugList(plugs) != NoMods
  {
  }

  /** What `renderPanelContent` shows for a snapshot and a mod list. */
  function RenderPanel(f: Features, plugs: seq<string>): (p: Panel)
    ensures f.dataBarrier ==> p.barrierLabel == "ACTIVE" && p.sandboxLevel == "STRICT"
    ensures !f.dataBarrier ==> p.barrierLabel == "DISABLED" && p.sandboxLevel == "STANDARD"
    ensures f.nightMode ==> p.nightLabel == "ON"
    ensures !f.nightMode ==> p.nightLabel == "OFF"
    ensures p.thread == RemoveFirst(f.url, SecureScheme)
    ensures !Occurs(f.url, SecureScheme) ==> p.thread == f.url
    ensures p.ritual == f.ritual && p.chroma == f.chroma
    ensures p.plugCount == |plugs|
    ensures p.plugList == PlugList(plugs)
  {
    Panel(
      barrierLabel := if f.dataBarrier then "ACTIVE" else "DISABLED",
      sandboxLevel := if f.dataBarrier then "STRICT" else "STANDARD",
      thread := RemoveFirst(f.url, SecureScheme),
      ritual := f.ritual,
      nightLabel := if f.nightMode then "ON" else "OFF",
      chroma := f.chroma,
      plugCount := |plugs|,
      plugList := PlugList(plugs))
  }

  /** A URL that starts with `https://` is shown without it. */
  lemma ThreadDropsScheme(f: Features, plugs: seq<string>)
    requires StartsWith(f.url, SecureScheme)
    ensures RenderPanel(f, plugs).thread == f.url[|SecureScheme|..]
  {
  }

  /** The scheme is removed wherever it first occurs, not only at the start:
      `http://a/?r=https://b` is shown as `http://a/?r=b`. */
  lemma ThreadDropsInnerScheme(f: Features, plugs: seq<string>)
    requires f.url == "http://a/?r=https://b"
    ensures RenderPanel(f, plugs).thread == "http://a/?r=b"
  {
    var u := f.url;
    assert OccursAt(u, SecureScheme, 12);
    forall i | 0 <= i < 12 ensures !OccursAt(u, SecureScheme, i) {
      assert u[i + 5] != SecureScheme[5];
    }
    assert IndexOf(u, SecureScheme) == 12;
  }

  /** The two barrier labels always agree: the sandbox level follows the data
      barrier, not the iframe's `sandbox` attribute. */
  lemma SandboxLevelFollowsBarrier(f: Features, plugs: seq<string>)
    ensures RenderPanel(f, plugs).sandboxLevel == "STRICT" <==> RenderPanel(f, plugs).barrierLabel == "ACTIVE"
  {
  }

  // ------------------------------------------------------------ overlay

  /** What `toggleDevUI` leaves in `style.display`: `block` closes to
      `none`, anything else (including the initial empty inline style) opens
      to `block`. */
  function ToggledDisplay(display: string): (r: string)
    ensures r == Block <==> display != Block
    ensures r == Hidden <==> display == Block
  {
    if display == Block then Hidden else Block
  }

  /** Once opened or closed, the overlay alternates between the two states. */
  lemma ToggleTwice(display: string)
    requires display == Block || display == Hidden
    ensures ToggledDisplay(ToggledDisplay(display)) == display
  {
  }

  /** The `#shaman-dev-ui` element: its inline `display` and whether it
      carries the `visible` class. */
  class Overlay {
    var display: string
    var visible: bool

    constructor ()
      ensures display == "" && !visible
    {
      display := "";
      visible := false;
    }
  }

  /** The host's `#menuContent`: the ids of its children, in order. */
  class Menu {
    var children: seq<string>

    /** The DevKit trigger appears at most once. */
    ghost predicate Valid()
      reads this
    {
      Seqs.Count(children, MenuItemId) <= 1
    }

    constructor (children: seq<string>)
      ensures this.children == children
    {
      this.children := children;
    }
  }

  /** `injectMenuTrigger` on the menu's children: the trigger is appended
      when it is not there yet, so it ends up there exactly once. */
  function WithMenuTrigger(children: seq<string>): (r: seq<string>)
    ensures Seqs.Count(children, MenuItemId) <= 1 ==> Seqs.Count(r, MenuItemId) == 1
    ensures MenuItemId in children ==> r == children
    ensures MenuItemId !in children ==> r == children + [MenuItemId]
  {
    assert MenuItemId !in children ==> multiset(children + [MenuItemId]) == multiset(children) + multiset{MenuItemId};
    Seqs.AddIfAbsent(children, MenuItemId)
  }

  /** The mod's state: the `devState` record, the last rendered panel, and
      the overlay and menu elements found in the page (null when absent). */
  class DevKit {
    var activePlugs: seq<string>
    var features: Option<Features>
    var lastUpdate: Option<int>
    var browserVersion: string
    var panel: Option<Panel>
    const overlay: Overlay?
    const menu: Menu?

    ghost predicate Valid()
      reads this, menu
    {
      menu != null ==> menu.Valid()
    }

    constructor (overlay: Overlay?, menu: Menu?)
      requires menu != null ==> menu.Valid()
      ensures Valid()
      ensures this.overlay == overlay && this.menu == menu
      ensures activePlugs == [] && features.None? && lastUpdate.None? && panel.None?
      ensures browserVersion == DetectingVersion
    {
      this.overlay := overlay;
      this.menu := menu;
      activePlugs := [];
      features := None;
      lastUpdate := None;
      browserVersion := DetectingVersion;
      panel := None;
    }

    /** `detectRealVersion`. */
    method DetectRealVersion(spans: seq<string>, title: string)
      modifies this
      ensures browserVersion == ResolveVersion(spans, title)
      ensures activePlugs == old(activePlugs) && features == old(features)
      ensures lastUpdate == old(lastUpdate) && panel == old(panel)
    {
      var found := ScanHeaderSpans(spans);
      if found == None || found.value == "" {
        found := if title == "" then None else Some(title);
      }
      if found.Some? {
        browserVersion := found.value;
      } else {
        browserVersion := UnknownBuild;
      }
    }

    /** `updateBrowserState` followed by `renderPanelContent`; `now` is the
        clock reading `new Date()` takes. */
    method UpdateBrowserState(host: HostView, now: int)
      modifies this
      ensures lastUpdate == Some(now)
      ensures features == Some(Snapshot(host))
      ensures activePlugs == host.plugs.GetOr([])
      ensures panel == Some(RenderPanel(Snapshot(host), activePlugs))
      ensures browserVersion == old(browserVersion)
    {
      lastUpdate := Some(now);
      features := Some(Snapshot(host));
      activePlugs := host.plugs.GetOr([]);
      panel := Some(RenderPanel(features.value, activePlugs));
    }

    /** `window.toggleDevUI`, in the state it settles in once its timers have
        fired: closing hides the overlay, opening re-reads the version and the
        host state and shows it. Without an overlay nothing happens. */
    method ToggleDevUI(host: HostView, now: int)
      modifies this, overlay
      ensures overlay == null ==>
        activePlugs == old(activePlugs) && features == old(features) && lastUpdate == old(lastUpdate)
        && browserVersion == old(browserVersion) && panel == old(panel)
      ensures overlay != null ==> overlay.display == ToggledDisplay(old(overlay.display))
      ensures overlay != null && old(overlay.display) == Block ==>
        !overlay.visible
        && activePlugs == old(activePlugs) && features == old(features) && lastUpdate == old(lastUpdate)
        && browserVersion == old(browserVersion) && panel == old(panel)
      ensures overlay != null && old(overlay.display) != Block ==>
        overlay.visible
        && browserVersion == ResolveVersion(host.headerSpans, host.title)
        && features == Some(Snapshot(host)) && lastUpdate == Some(now)
        && activePlugs == host.plugs.GetOr([])
        && panel == Some(RenderPanel(Snapshot(host), activePlugs))
    {
      if overlay == null {
        return;
      }
      if overlay.display == Block {
        overlay.visible := false;
        overlay.display := Hidden;
      } else {
        DetectRealVersion(host.headerSpans, host.title);
        overlay.display := Block;
        overlay.visible := true;
        UpdateBrowserState(host, now);
      }
    }

    /** `injectMenuTrigger`: without a menu nothing happens. */
    method InjectMenuTrigger()
      requires Valid()
      modifies menu
      ensures Valid()
      ensures menu != null ==> menu.children == WithMenuTrigger(old(menu.children))
      ensures menu != null ==> Seqs.Count(menu.children, MenuItemId) == 1
    {
      if menu != null && MenuItemId !in menu.children {
        menu.children := menu.children + [MenuItemId];
      }
    }
  }
}
