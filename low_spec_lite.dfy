/** The "Performance Ritual" mod: a detector that decides from four platform
    signals whether the device is low-end, and the DOM updates that add a
    `performance` option to the host's theme selector and switch the body
    into the `ritual-performance` theme.

    The platform probes (the saved preference in local storage, the user
    agent, `navigator.deviceMemory` and the WebGL renderer query) are inputs
    here; the detector is a total function of them. */
module LowSpecLite {
  import opened Wrappers
  import opened Strings
  import Seqs

  /** The theme value this mod adds, and the preference value that forces it. */
  const Performance: string := "performance"
  /** The option the new one is placed after. */
  const Matrix: string := "matrix"
  /** The body class that turns the performance theme on. */
  const PerformanceClass: string := "ritual-performance"

  const TvKeywords: seq<string> :=
    ["smart-tv", "smarttv", "googletv", "appletv", "roku", "webos", "tizen"]
  /** The alternatives of the renderer regular expression `/mali|adreno|videocore|intel hd|intel uhd/i`. */
  const WeakGpuFamilies: seq<string> :=
    ["mali", "adreno", "videocore", "intel hd", "intel uhd"]
  /** Device memory, in GiB, below which the device counts as low-end. */
  const RamThreshold: real := 4.0

  /** What the WebGL probe in `checkGPU` can come back with. */
  datatype GpuProbe =
    | NoContext               // `getContext('webgl')` gave no context
    | Threw                   // creating the canvas or querying it threw
    | NoDebugExt              // no `WEBGL_debug_renderer_info` extension
    | Renderer(name: string)  // the unmasked renderer string

  // ------------------------------------------------------------ detector

  /** `words.some(k => s.includes(k))`. */
  function AnyContained(s: string, words: seq<string>): (r: bool)
    ensures r <==> exists k :: k in words && Occurs(s, k)
  {
    if words == [] then false
    else
      assert forall k :: k in words <==> k == words[0] || k in words[1..];
      Contains(s, words[0]) || AnyContained(s, words[1..])
  }

  /** `checkIfTV`: the lower-cased user agent holds one of the TV keywords. */
  function CheckIfTV(userAgent: string): (r: bool)
    ensures r <==> exists k :: k in TvKeywords && Occurs(Lower(userAgent), k)
  {
    AnyContained(Lower(userAgent), TvKeywords)
  }

  /** `checkRAM`: `deviceMemory && deviceMemory < 4`, read for its truth
      value; a missing hint and a hint of 0 are both falsy. */
  function CheckRAM(deviceMemory: Option<real>): (r: bool)
    ensures deviceMemory.None? ==> !r
    ensures deviceMemory.Some? ==> (r <==> deviceMemory.value != 0.0 && deviceMemory.value < RamThreshold)
  {
    match deviceMemory
    case None => false
    case Some(m) => m != 0.0 && m < RamThreshold
  }

  /** `checkGPU`: no context and an exception count as weak, a missing debug
      extension as not weak, and a renderer name is weak when it holds one of
      the weak GPU families in any case. */
  function CheckGPU(probe: GpuProbe): (r: bool)
    ensures probe.NoContext? ==> r
    ensures probe.Threw? ==> r
    ensures probe.NoDebugExt? ==> !r
    ensures probe.Renderer? ==>
      (r <==> exists f :: f in WeakGpuFamilies && Occurs(Lower(probe.name), f))
  {
    match probe
    case NoContext => true
    case Threw => true
    case NoDebugExt => false
    case Renderer(name) => AnyContained(Lower(name), WeakGpuFamilies)
  }

  /** `detect`: a saved `performance` preference decides on its own;
      otherwise the device is low-end when it is a TV, has little memory or
      has a weak GPU. */
  function Detect(saved: Option<string>, userAgent: string, deviceMemory: Option<real>,
                  gpu: GpuProbe): (r: bool)
    ensures saved == Some(Performance) ==> r
    ensures saved != Some(Performance) ==>
      (r <==> (exists k :: k in TvKeywords && Occurs(Lower(userAgent), k))
              || CheckRAM(deviceMemory) || CheckGPU(gpu))
  {
    var isTV := CheckIfTV(userAgent);
    var lowRAM := CheckRAM(deviceMemory);
    var weakGPU := CheckGPU(gpu);
    var isSaved := saved == Some(Performance);
    if isSaved then true else isTV || lowRAM || weakGPU
  }

  /** A user agent that spells a TV keyword in any mix of cases is a TV. */
  lemma TvKeywordAnyCase(userAgent: string, k: string, i: nat)
    requires k in TvKeywords
    requires i + |k| <= |userAgent| && Lower(userAgent[i..i + |k|]) == k
    ensures CheckIfTV(userAgent)
  {
    FoldedOccurrence(userAgent, k, i);
  }

  /** A renderer name that spells a weak GPU family in any mix of cases is weak. */
  lemma WeakGpuAnyCase(name: string, f: string, i: nat)
    requires f in WeakGpuFamilies
    requires i + |f| <= |name| && Lower(name[i..i + |f|]) == f
    ensures CheckGPU(Renderer(name))
  {
    FoldedOccurrence(name, f, i);
  }

  /** Without a saved preference, "Roku" anywhere in the user agent is enough,
      whatever the memory hint and the GPU probe say. */
  lemma RokuIsLowEnd(userAgent: string, i: nat, deviceMemory: Option<real>, gpu: GpuProbe)
    requires i + 4 <= |userAgent| && userAgent[i..i + 4] == "Roku"
    ensures Detect(None, userAgent, deviceMemory, gpu)
  {
    assert Lower("Roku") == "roku";
    TvKeywordAnyCase(userAgent, "roku", i);
  }

  // ------------------------------------------------------------ theme selector

  /** Where `injectMenuOption` puts the new option: right after the first
      `matrix` option, or at the end when there is none. */
  function InsertionPoint(options: seq<string>): (p: nat)
    ensures p <= |options|
    ensures Matrix in options ==>
      0 < p && options[p - 1] == Matrix && Matrix !in options[..p - 1]
    ensures Matrix !in options ==> p == |options|
  {
    var m := Seqs.FirstIndex(options, Matrix);
    if m < |options| then m + 1 else |options|
  }

  /** The option values after `injectMenuOption`: unchanged when a
      `performance` option is already there; otherwise exactly one
      `performance` option is added at the insertion point and the other
      options keep their order. */
  function WithPerformanceOption(options: seq<string>): (r: seq<string>)
    ensures Performance in r
    ensures Performance in options ==> r == options
    ensures Performance !in options ==>
      |r| == |options| + 1
      && multiset(r) == multiset(options) + multiset{Performance}
      && Seqs.RemoveAll(r, Performance) == options
    ensures Performance !in options && Matrix in options ==>
      var m := Seqs.FirstIndex(options, Matrix); r[m] == Matrix && r[m + 1] == Performance
    ensures Performance !in options && Matrix !in options ==> r == options + [Performance]
  {
    if Performance in options then options
    else
      var p := InsertionPoint(options);
      Seqs.RemoveInserted(options, p, Performance);
      if Matrix in options then
        Seqs.InsertKeepsBefore(options, p, Performance);
        Seqs.InsertAt(options, p, Performance)
      else
        Seqs.InsertAtEnd(options, Performance);
        Seqs.InsertAt(options, p, Performance)
  }

  /** Injecting twice is the same as injecting once. */
  lemma WithPerformanceOptionIdempotent(options: seq<string>)
    ensures WithPerformanceOption(WithPerformanceOption(options)) == WithPerformanceOption(options)
  {
  }

  /** The `#ritualSelect` element: the values of its options in document
      order and the index of the selected option (-1 when none is). */
  class RitualSelect {
    var options: seq<string>
    var selectedIndex: int

    ghost predicate Valid()
      reads this
    {
      -1 <= selectedIndex < |options|
    }

    /** `select.value`: the selected option's value, "" when none is selected. */
    function Value(): (r: string)
      reads this
      requires Valid()
      ensures selectedIndex == -1 ==> r == ""
      ensures selectedIndex != -1 ==> r in options && r == options[selectedIndex]
    {
      if selectedIndex == -1 then "" else options[selectedIndex]
    }

    constructor (options: seq<string>, selectedIndex: int)
      requires -1 <= selectedIndex < |options|
      ensures Valid()
      ensures this.options == options && this.selectedIndex == selectedIndex
    {
      this.options := options;
      this.selectedIndex := selectedIndex;
    }

    /** `select.value = v`: selects the first option whose value is `v`, or
        none when there is no such option. */
    method SetValue(v: string)
      requires Valid()
      modifies this`selectedIndex
      ensures Valid()
      ensures Value() == (if v in options then v else "")
      ensures v in options ==> selectedIndex == Seqs.FirstIndex(options, v)
    {
      var k := Seqs.FirstIndex(options, v);
      selectedIndex := if k < |options| then k else -1;
    }

    /** The option-list part of `injectMenuOption`. The selected option stays
        selected; when none was, the browser selects the first option, as it
        does whenever an option is inserted into a drop-down with nothing
        selected. */
    method InjectPerformanceOption()
      requires Valid()
      modifies this
      ensures Valid()
      ensures options == WithPerformanceOption(old(options))
      ensures Performance in old(options) ==> selectedIndex == old(selectedIndex)
      ensures old(selectedIndex) != -1 ==> Value() == old(Value())
      ensures old(selectedIndex) == -1 && Performance !in old(options) ==> selectedIndex == 0
    {
      if Performance in options {
        return;
      }
      var p := InsertionPoint(options);
      ghost var before := options;
      options := Seqs.InsertAt(options, p, Performance);
      if selectedIndex == -1 {
        selectedIndex := 0;
      } else if p <= selectedIndex {
        assert options[selectedIndex + 1] == options[p + 1..][selectedIndex - p];
        selectedIndex := selectedIndex + 1;
      } else {
        assert options[selectedIndex] == options[..p][selectedIndex];
      }
    }
  }

  // ------------------------------------------------------------ page

  /** The part of the host page this mod touches: the theme selector, if the
      page has one, and the class list of the body. */
  class Page {
    const ritualSelect: RitualSelect?
    var bodyClasses: seq<string>

    ghost predicate Valid()
      reads this, ritualSelect
    {
      (ritualSelect != null ==> ritualSelect.Valid()) && Seqs.NoDup(bodyClasses)
    }

    constructor (ritualSelect: RitualSelect?, bodyClasses: seq<string>)
      requires ritualSelect != null ==> ritualSelect.Valid()
      requires Seqs.NoDup(bodyClasses)
      ensures Valid()
      ensures this.ritualSelect == ritualSelect && this.bodyClasses == bodyClasses
    {
      this.ritualSelect := ritualSelect;
      this.bodyClasses := bodyClasses;
    }

    /** `injectMenuOption`: nothing happens without a selector. */
    method InjectMenuOption()
      requires Valid()
      modifies ritualSelect
      ensures Valid()
      ensures ritualSelect != null ==>
        ritualSelect.options == WithPerformanceOption(old(ritualSelect.options))
      ensures ritualSelect != null && Performance in old(ritualSelect.options) ==>
        ritualSelect.selectedIndex == old(ritualSelect.selectedIndex)
      ensures ritualSelect != null && old(ritualSelect.selectedIndex) != -1 ==>
        ritualSelect.Value() == old(ritualSelect.Value())
      ensures (ritualSelect != null && old(ritualSelect.selectedIndex) == -1 &&
               Performance !in old(ritualSelect.options)) ==>
        ritualSelect.selectedIndex == 0
    {
      if ritualSelect != null {
        ritualSelect.InjectPerformanceOption();
      }
    }

    /** The `change` listener installed by `setupEventListeners` (only when
        the selector exists): it reads the selector's new value. */
    method OnRitualChange()
      requires Valid() && ritualSelect != null
      modifies this
      ensures Valid()
      ensures bodyClasses == ClassesAfterChange(old(bodyClasses), ritualSelect.Value())
    {
      bodyClasses := ClassesAfterChange(bodyClasses, ritualSelect.Value());
    }

    /** `activateMode`: select `performance` and fire `change` (which runs the
        listener above), then add the class in any case. */
    method ActivateMode()
      requires Valid()
      modifies this, ritualSelect
      ensures Valid()
      ensures PerformanceClass in bodyClasses
      ensures forall c :: c != PerformanceClass ==> (c in bodyClasses <==> c in old(bodyClasses))
      ensures ritualSelect != null ==>
        ritualSelect.options == old(ritualSelect.options)
        && ritualSelect.Value() == (if Performance in ritualSelect.options then Performance else "")
      ensures (ritualSelect == null || Performance in ritualSelect.options) ==>
        bodyClasses == Seqs.AddIfAbsent(old(bodyClasses), PerformanceClass)
    {
      if ritualSelect != null {
        ritualSelect.SetValue(Performance);
        OnRitualChange();
      }
      bodyClasses := Seqs.AddIfAbsent(bodyClasses, PerformanceClass);
    }

    /** `initPerformanceMode`: inject the option, then switch the theme on
        when the detector says the device is low-end. */
    method InitPerformanceMode(saved: Option<string>, userAgent: string,
                               deviceMemory: Option<real>, gpu: GpuProbe)
      requires Valid()
      modifies this, ritualSelect
      ensures Valid()
      ensures ritualSelect != null ==>
        ritualSelect.options == WithPerformanceOption(old(ritualSelect.options))
      ensures Detect(saved, userAgent, deviceMemory, gpu) ==>
        bodyClasses == Seqs.AddIfAbsent(old(bodyClasses), PerformanceClass)
        && (ritualSelect != null ==> ritualSelect.Value() == Performance)
      ensures !Detect(saved, userAgent, deviceMemory, gpu) ==> bodyClasses == old(bodyClasses)
      ensures !Detect(saved, userAgent, deviceMemory, gpu) && ritualSelect != null ==>
        (Performance in old(ritualSelect.options) ==>
           ritualSelect.selectedIndex == old(ritualSelect.selectedIndex))
        && (old(ritualSelect.selectedIndex) != -1 ==>
              ritualSelect.Value() == old(ritualSelect.Value()))
        && (old(ritualSelect.selectedIndex) == -1 && Performance !in old(ritualSelect.options) ==>
              ritualSelect.selectedIndex == 0)
    {
      InjectMenuOption();
      if Detect(saved, userAgent, deviceMemory, gpu) {
        ActivateMode();
      }
    }
  }

  /** The body classes after the `change` listener has run for the value
      `value`: `ritual-performance` is there exactly when the value is
      `performance`, and no other class comes or goes. */
  function ClassesAfterChange(classes: seq<string>, value: string): (r: seq<string>)
    ensures PerformanceClass in r <==> value == Performance
    ensures forall c :: c != PerformanceClass ==> (c in r <==> c in classes)
    ensures Seqs.NoDup(classes) ==> Seqs.NoDup(r)
    ensures value == Performance && PerformanceClass in classes ==> r == classes
    ensures value != Performance && PerformanceClass !in classes ==> r == classes
  {
    if value == Performance then Seqs.AddIfAbsent(classes, PerformanceClass)
    else Seqs.RemoveAll(classes, PerformanceClass)
  }

  /** In a class list without repeats, switching away from `performance`
      removes just the one `ritual-performance` entry and keeps the order of
      the rest. */
  lemma LeavingPerformanceKeepsOrder(classes: seq<string>, k: nat, value: string)
    requires Seqs.NoDup(classes) && k < |classes| && classes[k] == PerformanceClass
    requires value != Performance
    ensures ClassesAfterChange(classes, value) == classes[..k] + classes[k + 1..]
  {
    Seqs.RemoveAllAt(classes, k);
  }
}
