/**
 * The built-in list of hardware worker pools offered when picking a pool,
 * and their grouping by operating system.
 */
module PoolPresets {
  import opened Seqs

  /** The emoji of the presets and categories, as Unicode scalar values. */
  const Apple: string := "\U{1F34E}"
  const Books: string := "\U{1F4DA}"
  const Construction: string := "\U{1F3D7}\U{FE0F}"
  const Gear: string := "\U{2699}\U{FE0F}"
  const Globe: string := "\U{1F310}"
  const Laptop: string := "\U{1F4BB}"
  const Lightning: string := "\U{26A1}\U{FE0F}"
  const Lock: string := "\U{1F512}"
  const LockWithKey: string := "\U{1F510}"
  const Office: string := "\U{1F3E2}"
  const Officer: string := "\U{1F46E}"
  const Penguin: string := "\U{1F427}"
  const Phone: string := "\U{1F4F1}"
  const Rocket: string := "\U{1F680}"
  const TestTube: string := "\U{1F9EA}"
  const Window: string := "\U{1FA9F}"

  /** The operating system family of a pool. */
  datatype PoolCategory = MacOS | Windows | Linux {

    function RawValue(): string {
      match this
      case MacOS => "macOS"
      case Windows => "Windows"
      case Linux => "Linux"
    }

    function Emoji(): string {
      match this
      case MacOS => Apple
      case Windows => Window
      case Linux => Penguin
    }

    /** The emoji, a space and the raw value. */
    function DisplayName(): string {
      Emoji() + " " + RawValue()
    }
  }

  /** A pool the app knows by name; every preset lives under the same provisioner. */
  datatype PoolPreset = PoolPreset(workerType: string, name: string, emoji: string, category: PoolCategory) {

    function ProvisionerId(): string {
      "releng-hardware"
    }

    function DisplayName(): string {
      name
    }

    function Description(): string {
      workerType
    }
  }

  const MacOSPools: seq<PoolPreset> := [
      PoolPreset("applicationservices-b-1-osx1015", "App Services L1", Phone, MacOS),
      PoolPreset("applicationservices-b-3-osx1015", "App Services L3", Phone, MacOS),
      PoolPreset("enterprise-1-b-osx-arm64", "Enterprise L1 ARM64", Office, MacOS),
      PoolPreset("enterprise-3-b-osx-arm64", "Enterprise L3 ARM64", Office, MacOS),
      PoolPreset("gecko-1-b-osx-1015", "Gecko Build L1 Catalina", Construction, MacOS),
      PoolPreset("gecko-1-b-osx-1015-staging", "Gecko Build L1 Catalina Staging", TestTube, MacOS),
      PoolPreset("gecko-1-b-osx-arm64", "Gecko Build L1 ARM64", Construction, MacOS),
      PoolPreset("gecko-3-b-osx-1015", "Gecko Build L3 Catalina", Construction, MacOS),
      PoolPreset("gecko-3-b-osx-arm64", "Gecko Build L3 ARM64", Construction, MacOS),
      PoolPreset("gecko-t-osx-1015-r8", "Gecko Test Catalina R8", Apple, MacOS),
      PoolPreset("gecko-t-osx-1015-r8-staging", "Gecko Test Catalina R8 Staging", TestTube, MacOS),
      PoolPreset("gecko-t-osx-1400-r8", "Gecko Test Intel R8", Lightning, MacOS),
      PoolPreset("gecko-t-osx-1400-r8-staging", "Gecko Test Intel R8 Staging", TestTube, MacOS),
      PoolPreset("gecko-t-osx-1500-m4", "Gecko Test M4", Rocket, MacOS),
      PoolPreset("gecko-t-osx-1500-m4-ipv6", "Gecko Test M4 IPv6", Globe, MacOS),
      PoolPreset("gecko-t-osx-1500-m4-staging", "Gecko Test M4 Staging", TestTube, MacOS),
      PoolPreset("gecko-t-osx-1500-m-vms", "Gecko Test M-series VMs", Laptop, MacOS),
      PoolPreset("mozillavpn-b-1-osx", "Mozilla VPN L1", LockWithKey, MacOS),
      PoolPreset("mozillavpn-b-3-osx", "Mozilla VPN L3", LockWithKey, MacOS),
      PoolPreset("nss-1-b-osx-1015", "NSS L1 Catalina", Lock, MacOS),
      PoolPreset("nss-3-b-osx-1015", "NSS L3 Catalina", Lock, MacOS)
    ]

  const LinuxPools: seq<PoolPreset> := [
      PoolPreset("gecko-t-linux-netperf-1804", "Gecko Test Linux Netperf 18.04", Globe, Linux),
      PoolPreset("gecko-t-linux-netperf-2404", "Gecko Test Linux Netperf 24.04", Globe, Linux),
      PoolPreset("gecko-t-linux-talos-1804", "Gecko Test Linux Talos 18.04", Penguin, Linux),
      PoolPreset("gecko-t-linux-talos-2404", "Gecko Test Linux Talos 24.04", Penguin, Linux)
    ]

  const WindowsPools: seq<PoolPreset> := [
      PoolPreset("gecko-t-win7-32-hw", "Gecko Test Win7 32-bit", Window, Windows),
      PoolPreset("win10-64-2009-hw", "Win10 64-bit 2009", Window, Windows),
      PoolPreset("win10-64-2009-hw-alpha", "Win10 64-bit 2009 Alpha", TestTube, Windows),
      PoolPreset("win11-64-24h2-hw", "Win11 64-bit 24H2", Window, Windows),
      PoolPreset("win11-64-24h2-hw-alpha", "Win11 64-bit 24H2 Alpha", TestTube, Windows),
      PoolPreset("win11-64-24h2-hw-perf-sheriff", "Win11 Perf Sheriff", Officer, Windows),
      PoolPreset("win11-64-24h2-hw-ref", "Win11 Reference", Books, Windows),
      PoolPreset("win11-64-24h2-hw-ref-alpha", "Win11 Reference Alpha", TestTube, Windows),
      PoolPreset("win11-64-24h2-hw-relops1213", "Win11 RelOps", Gear, Windows)
    ]

  /** Every preset, macOS first, then Linux, then Windows. */
  const AllPools: seq<PoolPreset> := MacOSPools + LinuxPools + WindowsPools

  // -------------------------------------------------------------- grouping

  /** `Dictionary(grouping: pools, by: { $0.category })`: each preset appended to its category's group. */
  function Categorized(pools: seq<PoolPreset>): map<PoolCategory, seq<PoolPreset>> {
    if pools == [] then map[]
    else
      var groups := Categorized(pools[..|pools| - 1]);
      var p := pools[|pools| - 1];
      groups[p.category := GroupOf(groups, p.category) + [p]]
  }

  /** A category's group, empty when the category has no key. */
  function GroupOf(groups: map<PoolCategory, seq<PoolPreset>>, c: PoolCategory): seq<PoolPreset> {
    if c in groups then groups[c] else []
  }

  function InCategory(c: PoolCategory): PoolPreset -> bool {
    (p: PoolPreset) => p.category == c
  }

  // ---------------------------------------------------------------- lemmas

  /** Filtering a sequence with one more element at the end. */
  lemma FilterSnoc<T>(s: seq<T>, x: T, p: T -> bool)
    ensures Filter(s + [x], p) == Filter(s, p) + (if p(x) then [x] else [])
  {
    FilterConcat(s, [x], p);
    assert [x][1..] == [];
  }

  /** A category is a key exactly when some preset has it. */
  lemma {:induction false} KeysArePresentCategories(pools: seq<PoolPreset>, c: PoolCategory)
    ensures c in Categorized(pools) <==> exists i :: 0 <= i < |pools| && pools[i].category == c
  {
    if pools != [] {
      var front, p := pools[..|pools| - 1], pools[|pools| - 1];
      KeysArePresentCategories(front, c);
      if c in Categorized(pools) && p.category != c {
        var i :| 0 <= i < |front| && front[i].category == c;
        assert pools[i] == front[i];
      }
      if exists i :: 0 <= i < |pools| && pools[i].category == c {
        var i :| 0 <= i < |pools| && pools[i].category == c;
        if i < |front| {
          assert front[i] == pools[i];
        }
      }
    }
  }

  /** A category's group is the presets of that category in their original order. */
  lemma {:induction false} GroupsAreFilters(pools: seq<PoolPreset>, c: PoolCategory)
    ensures GroupOf(Categorized(pools), c) == Filter(pools, InCategory(c))
  {
    if pools != [] {
      var front, p := pools[..|pools| - 1], pools[|pools| - 1];
      assert pools == front + [p];
      GroupsAreFilters(front, c);
      FilterSnoc(front, p, InCategory(c));
    }
  }

  /** Every key has a non-empty group. */
  lemma {:induction false} GroupsNonEmpty(pools: seq<PoolPreset>)
    ensures forall c :: c in Categorized(pools) ==> |Categorized(pools)[c]| > 0
  {
    if pools != [] {
      GroupsNonEmpty(pools[..|pools| - 1]);
    }
  }

  /** The group sizes add up to the number of presets. */
  lemma {:induction false} GroupSizes(pools: seq<PoolPreset>)
    ensures |GroupOf(Categorized(pools), MacOS)| + |GroupOf(Categorized(pools), Windows)|
            + |GroupOf(Categorized(pools), Linux)| == |pools|
  {
    if pools != [] {
      var front, p := pools[..|pools| - 1], pools[|pools| - 1];
      GroupSizes(front);
      var before, after := Categorized(front), Categorized(pools);
      assert after == before[p.category := GroupOf(before, p.category) + [p]];
      assert |GroupOf(after, p.category)| == |GroupOf(before, p.category)| + 1;
      forall c | c != p.category
        ensures GroupOf(after, c) == GroupOf(before, c)
      {
      }
    }
  }

  /** A preset is in the group of its own category and in no other. */
  lemma GroupedByOwnCategory(pools: seq<PoolPreset>, p: PoolPreset, c: PoolCategory)
    requires p in pools
    ensures p in GroupOf(Categorized(pools), c) <==> c == p.category
  {
    GroupsAreFilters(pools, c);
    FilterMember(pools, InCategory(c), p);
  }

  /** The built-in list has 21 macOS, 4 Linux and 9 Windows presets, in that order. */
  lemma PresetGroups()
    ensures |AllPools| == 34
    ensures GroupOf(Categorized(AllPools), MacOS) == MacOSPools && |MacOSPools| == 21
    ensures GroupOf(Categorized(AllPools), Linux) == LinuxPools && |LinuxPools| == 4
    ensures GroupOf(Categorized(AllPools), Windows) == WindowsPools && |WindowsPools| == 9
  {
    ListLengths();
    ListCategories();
    GroupsOfThree(MacOSPools, LinuxPools, WindowsPools);
  }

  lemma ListLengths()
    ensures |MacOSPools| == 21 && |LinuxPools| == 4 && |WindowsPools| == 9
  {
  }

  /** Grouping three lists of macOS, Linux and Windows presets put together gives the three lists back. */
  lemma GroupsOfThree(mac: seq<PoolPreset>, linux: seq<PoolPreset>, windows: seq<PoolPreset>)
    requires forall i :: 0 <= i < |mac| ==> mac[i].category == MacOS
    requires forall i :: 0 <= i < |linux| ==> linux[i].category == Linux
    requires forall i :: 0 <= i < |windows| ==> windows[i].category == Windows
    ensures GroupOf(Categorized(mac + linux + windows), MacOS) == mac
    ensures GroupOf(Categorized(mac + linux + windows), Linux) == linux
    ensures GroupOf(Categorized(mac + linux + windows), Windows) == windows
  {
    var all := mac + linux + windows;
    GroupsAreFilters(all, MacOS);
    GroupsAreFilters(all, Linux);
    GroupsAreFilters(all, Windows);
    SplitThree(mac, linux, windows, MacOS);
    SplitThree(mac, linux, windows, Linux);
    SplitThree(mac, linux, windows, Windows);
  }

  /** Each list holds presets of its own category only. */
  lemma ListCategories()
    ensures forall i :: 0 <= i < |MacOSPools| ==> MacOSPools[i].category == MacOS
    ensures forall i :: 0 <= i < |LinuxPools| ==> LinuxPools[i].category == Linux
    ensures forall i :: 0 <= i < |WindowsPools| ==> WindowsPools[i].category == Windows
  {
  }

  /** Three lists of macOS, Linux and Windows presets, put together, are split back by category. */
  lemma SplitThree(mac: seq<PoolPreset>, linux: seq<PoolPreset>, windows: seq<PoolPreset>, c: PoolCategory)
    requires forall i :: 0 <= i < |mac| ==> mac[i].category == MacOS
    requires forall i :: 0 <= i < |linux| ==> linux[i].category == Linux
    requires forall i :: 0 <= i < |windows| ==> windows[i].category == Windows
    ensures Filter(mac + linux + windows, InCategory(c)) ==
              (if c == MacOS then mac else if c == Linux then linux else windows)
  {
    var keep := InCategory(c);
    FilterOfThree(mac, linux, windows, keep);
    KeepOrDrop(mac, MacOS, c);
    KeepOrDrop(linux, Linux, c);
    KeepOrDrop(windows, Windows, c);
    JoinWithEmpties(Filter(mac, keep), Filter(linux, keep), Filter(windows, keep));
  }

  /** Three lists joined, of which two are empty, give the third. */
  lemma JoinWithEmpties(m: seq<PoolPreset>, l: seq<PoolPreset>, w: seq<PoolPreset>)
    ensures l == [] && w == [] ==> m + l + w == m
    ensures m == [] && w == [] ==> m + l + w == l
    ensures m == [] && l == [] ==> m + l + w == w
  {
  }

  /** Filtering three lists put together filters each in turn. */
  lemma FilterOfThree(a: seq<PoolPreset>, b: seq<PoolPreset>, c: seq<PoolPreset>, keep: PoolPreset -> bool)
    ensures Filter(a + b + c, keep) == Filter(a, keep) + Filter(b, keep) + Filter(c, keep)
  {
    FilterConcat(a + b, c, keep);
    FilterConcat(a, b, keep);
  }

  /** A list of one category is kept whole by its own filter and dropped by the others. */
  lemma KeepOrDrop(pools: seq<PoolPreset>, own: PoolCategory, c: PoolCategory)
    requires forall i :: 0 <= i < |pools| ==> pools[i].category == own
    ensures Filter(pools, InCategory(c)) == if c == own then pools else []
  {
    if c == own {
      FilterAll(pools, InCategory(c));
    } else {
      FilterNone(pools, InCategory(c));
    }
  }

  /** Every preset names the shared provisioner, and shows its name and worker type. */
  lemma PresetFields(p: PoolPreset)
    ensures p.ProvisionerId() == "releng-hardware"
    ensures p.DisplayName() == p.name && p.Description() == p.workerType
  {
  }

  /** Categories are told apart by their raw values and by their display names. */
  lemma CategoryNamesDistinct(a: PoolCategory, b: PoolCategory)
    ensures a.RawValue() == b.RawValue() <==> a == b
    ensures a.DisplayName() == b.DisplayName() <==> a == b
  {
    if a != b {
      assert a.RawValue()[|a.RawValue()| - 1] != b.RawValue()[|b.RawValue()| - 1]
        || |a.RawValue()| != |b.RawValue()|;
      assert a.DisplayName()[0] != b.DisplayName()[0];
    }
  }

  /** No two presets of a list share a worker type. */
  predicate DistinctTypes(pools: seq<PoolPreset>) {
    forall i, j :: 0 <= i < j < |pools| ==> pools[i].workerType != pools[j].workerType
  }

  /** No preset of one list shares a worker type with a preset of the other. */
  predicate Apart(a: seq<PoolPreset>, b: seq<PoolPreset>) {
    forall i, j :: 0 <= i < |a| && 0 <= j < |b| ==> a[i].workerType != b[j].workerType
  }

  lemma DistinctConcat(a: seq<PoolPreset>, b: seq<PoolPreset>)
    requires DistinctTypes(a) && DistinctTypes(b) && Apart(a, b)
    ensures DistinctTypes(a + b)
  {
    forall i, j | 0 <= i < j < |a + b|
      ensures (a + b)[i].workerType != (a + b)[j].workerType
    {
      if j < |a| {
        assert (a + b)[i] == a[i] && (a + b)[j] == a[j];
      } else if i < |a| {
        assert (a + b)[i] == a[i] && (a + b)[j] == b[j - |a|];
      } else {
        assert (a + b)[i] == b[i - |a|] && (a + b)[j] == b[j - |a|];
      }
    }
  }

  lemma ApartConcat(a: seq<PoolPreset>, b: seq<PoolPreset>, c: seq<PoolPreset>)
    requires Apart(a, c) && Apart(b, c)
    ensures Apart(a + b, c)
  {
    forall i, j | 0 <= i < |a + b| && 0 <= j < |c|
      ensures (a + b)[i].workerType != c[j].workerType
    {
      if i < |a| {
        assert (a + b)[i] == a[i];
      } else {
        assert (a + b)[i] == b[i - |a|];
      }
    }
  }

  lemma MacOSDistinct()
    ensures DistinctTypes(MacOSPools)
  {
    ListLengths();
    MacOSDistinctBetween(0, 11, 0, 11);
    MacOSDistinctBetween(0, 11, 11, 21);
    MacOSDistinctBetween(11, 21, 11, 21);
  }

  /** The macOS list, checked in blocks of indices. */
  lemma MacOSDistinctBetween(lo1: int, hi1: int, lo2: int, hi2: int)
    requires (lo1, hi1, lo2, hi2) in {(0, 11, 0, 11), (0, 11, 11, 21), (11, 21, 11, 21)}
    ensures forall i, j :: lo1 <= i < hi1 && lo2 <= j < hi2 && i < j ==>
              MacOSPools[i].workerType != MacOSPools[j].workerType
  {
    ListLengths();
  }

  lemma LinuxDistinct()
    ensures DistinctTypes(LinuxPools)
  {
  }

  lemma WindowsDistinct()
    ensures DistinctTypes(WindowsPools)
  {
  }

  lemma MacOSApartFromLinux()
    ensures Apart(MacOSPools, LinuxPools)
  {
  }

  lemma MacOSApartFromWindows()
    ensures Apart(MacOSPools, WindowsPools)
  {
  }

  lemma LinuxApartFromWindows()
    ensures Apart(LinuxPools, WindowsPools)
  {
  }

  /** No two presets share a worker type. */
  lemma WorkerTypesDistinct()
    ensures DistinctTypes(AllPools)
  {
    MacOSDistinct();
    LinuxDistinct();
    WindowsDistinct();
    MacOSApartFromLinux();
    MacOSApartFromWindows();
    LinuxApartFromWindows();
    DistinctConcat(MacOSPools, LinuxPools);
    ApartConcat(MacOSPools, LinuxPools, WindowsPools);
    DistinctConcat(MacOSPools + LinuxPools, WindowsPools);
  }
}
