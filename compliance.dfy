/** The compliance mapper and seeder as functions on table contents
    (api/app/crud/crud_compliance.py): the seed tables, the keyword rules
    that pick control names from a finding's title, the link collection a
    mapping run produces, and the framework and control tables seeding
    produces. The store methods in Store follow these functions step by step. */
module Compliance {
  import opened Wrappers
  import opened Query
  import opened Text
  import opened Schemas

  const NistName := "NIST 800-53"
  const IsoName := "ISO 27001"
  const PatchControl := "Patch Management & Configuration Hardening"
  const AccessControl := "Access Control & Principle of Least Privilege"

  /** Framework name and version, in table order. */
  const FrameworkData: seq<(string, string)> := [(NistName, "Rev 5"), (IsoName, "2022")]

  datatype ControlSeed = ControlSeed(controlName: string, ciaDomain: string)

  const ControlData: seq<ControlSeed> := [
    ControlSeed(PatchControl, "Integrity, Availability"),
    ControlSeed(AccessControl, "Confidentiality")]

  /** For each control, the frameworks it belongs to with the framework's own
      control reference; the reference is documentation and is not stored. */
  const ControlFrameworkMap: map<string, seq<(string, string)>> := map[
    PatchControl := [(NistName, "CM-3"), (IsoName, "A.12.6.1")],
    AccessControl := [(NistName, "AC-3"), (IsoName, "A.9.2.3")]]

  /** `CONTROL_FRAMEWORK_MAP.get(name, [])` */
  function CitationsFor(name: string): (r: seq<(string, string)>)
    ensures name !in ControlFrameworkMap ==> r == []
  {
    if name in ControlFrameworkMap then ControlFrameworkMap[name] else []
  }

  // ---------------------------------------------------------------- lookups

  /** The filter `Framework.name == name`. */
  function FrameworkNamed(name: string): Framework -> bool
  {
    (f: Framework) => f.name == name
  }

  /** The filter `Control.control_name == name`. */
  function ControlNamed(name: string): Control -> bool
  {
    (c: Control) => c.controlName == name
  }

  /** The first framework row with this name. */
  function FrameworkIndex(frameworks: seq<Framework>, name: string): (r: Option<nat>)
    ensures r.Some? ==> r.value < |frameworks| && frameworks[r.value].name == name
    ensures r.Some? ==> forall j :: 0 <= j < r.value ==> frameworks[j].name != name
    ensures r.None? <==> forall j :: 0 <= j < |frameworks| ==> frameworks[j].name != name
  {
    First(frameworks, FrameworkNamed(name))
  }

  /** The first control row with this name. */
  function ControlIndex(controls: seq<Control>, name: string): (r: Option<nat>)
    ensures r.Some? ==> r.value < |controls| && controls[r.value].controlName == name
    ensures r.Some? ==> forall j :: 0 <= j < r.value ==> controls[j].controlName != name
    ensures r.None? <==> forall j :: 0 <= j < |controls| ==> controls[j].controlName != name
  {
    First(controls, ControlNamed(name))
  }

  /** In a table without repeated names, the row found for a name is the only one with it. */
  lemma FrameworkIndexOfUnique(frameworks: seq<Framework>, j: nat)
    requires UniqueFrameworkNames(frameworks) && j < |frameworks|
    ensures FrameworkIndex(frameworks, frameworks[j].name) == Some(j)
  {
  }

  lemma ControlIndexOfUnique(controls: seq<Control>, j: nat)
    requires UniqueControlNames(controls) && j < |controls|
    ensures ControlIndex(controls, controls[j].controlName) == Some(j)
  {
  }

  // ------------------------------------------------------ keyword selection

  /** The keyword rule for the patch-management control, on the lower-cased title. */
  predicate MentionsPatching(title: string)
  {
    var t := Lower(title);
    Contains(t, "patch") || Contains(t, "ssh") || Contains(t, "config")
  }

  /** The keyword rule for the access-control control, on the lower-cased title. */
  predicate MentionsAccess(title: string)
  {
    var t := Lower(title);
    Contains(t, "access") || Contains(t, "privilege")
  }

  /** The names of the controls a title selects: each rule contributes its
      control once, the patch-management rule first. */
  function SelectControlNames(title: string): (r: seq<string>)
    ensures PatchControl in r <==> MentionsPatching(title)
    ensures AccessControl in r <==> MentionsAccess(title)
    ensures forall k :: 0 <= k < |r| ==> r[k] == PatchControl || r[k] == AccessControl
    ensures |r| <= 2
    ensures |r| == 2 ==> r == [PatchControl, AccessControl]
  {
    var names := if MentionsPatching(title) then [PatchControl] else [];
    names + if MentionsAccess(title) then [AccessControl] else []
  }

  /** The selection ignores letter case. */
  lemma SelectionIgnoresCase(title: string)
    ensures SelectControlNames(Upper(title)) == SelectControlNames(title)
    ensures SelectControlNames(Lower(title)) == SelectControlNames(title)
  {
    LowerIgnoresCase(title);
    LowerIdempotent(title);
  }

  /** A title that hits the patch-management rule and has no letter a or p
      in either case selects that control alone. */
  lemma PatchOnlyTitle(title: string)
    requires MentionsPatching(title)
    requires 'a' !in title && 'A' !in title && 'p' !in title && 'P' !in title
    ensures SelectControlNames(title) == [PatchControl]
  {
    LowerLacks(title, 'a');
    LowerLacks(title, 'p');
    MissingCharNotContained(Lower(title), "access", 'a');
    MissingCharNotContained(Lower(title), "privilege", 'p');
  }

  /** The title "SSH config issue on server" selects the patch-management
      control and nothing else. */
  lemma SshConfigTitle(title: string)
    requires title == "SSH config issue on server"
    ensures SelectControlNames(title) == [PatchControl]
  {
    SshConfigHitsPatchRule(title);
    SshConfigLacksA(title);
    SshConfigLacksP(title);
    PatchOnlyTitle(title);
  }

  lemma SshConfigHitsPatchRule(title: string)
    requires title == "SSH config issue on server"
    ensures MentionsPatching(title)
  {
    var t := Lower(title);
    assert title[..3] == "SSH";
    assert Lower("SSH") == "ssh";
    assert t[..3] == Lower(title[..3]);
  }

  lemma SshConfigLacksA(title: string)
    requires title == "SSH config issue on server"
    ensures 'a' !in title && 'A' !in title
  {
  }

  lemma SshConfigLacksP(title: string)
    requires title == "SSH config issue on server"
    ensures 'p' !in title && 'P' !in title
  {
  }

  // ------------------------------------------------------------ link updates

  /** `name` resolves to the control with id `id`: the first control row with
      that name has that id. */
  predicate Resolves(controls: seq<Control>, name: string, id: nat)
  {
    var k := ControlIndex(controls, name);
    k.Some? && controls[k.value].id == id
  }

  /** One step of the linking loop: look the control up by name and append
      its id unless it is missing or already linked. */
  function LinkControl(links: seq<nat>, controls: seq<Control>, name: string): seq<nat>
  {
    match ControlIndex(controls, name)
    case None => links
    case Some(k) => if controls[k].id in links then links else links + [controls[k].id]
  }

  /** The linking loop over the selected names, in order. */
  function LinkControls(links: seq<nat>, controls: seq<Control>, names: seq<string>): seq<nat>
    decreases |names|
  {
    if names == [] then links
    else LinkControls(LinkControl(links, controls, names[0]), controls, names[1..])
  }

  /** The control list a finding has after being mapped with `title`. */
  function MapControls(links: seq<nat>, controls: seq<Control>, title: string): seq<nat>
  {
    LinkControls(links, controls, SelectControlNames(title))
  }

  /** Existing links stay, in their order, at the front. */
  lemma {:induction false} LinkControlsExtends(links: seq<nat>, controls: seq<Control>, names: seq<string>)
    ensures |links| <= |LinkControls(links, controls, names)|
    ensures LinkControls(links, controls, names)[..|links|] == links
    decreases |names|
  {
    if names != [] {
      var next := LinkControl(links, controls, names[0]);
      LinkControlsExtends(next, controls, names[1..]);
      assert next[..|links|] == links;
    }
  }

  /** The links afterwards are the old links and the ids of the selected names
      that resolve: a name with no control row adds nothing. */
  lemma {:induction false} LinkControlsMembers(links: seq<nat>, controls: seq<Control>, names: seq<string>, x: nat)
    ensures x in LinkControls(links, controls, names)
        <==> x in links || exists k :: 0 <= k < |names| && Resolves(controls, names[k], x)
    decreases |names|
  {
    if names != [] {
      var next := LinkControl(links, controls, names[0]);
      LinkControlsMembers(next, controls, names[1..], x);
      assert x in next <==> x in links || Resolves(controls, names[0], x);
      if exists k :: 0 <= k < |names| && Resolves(controls, names[k], x) {
        var k :| 0 <= k < |names| && Resolves(controls, names[k], x);
        if k > 0 {
          assert names[1..][k - 1] == names[k];
        }
      }
      if exists k :: 0 <= k < |names[1..]| && Resolves(controls, names[1..][k], x) {
        var k :| 0 <= k < |names[1..]| && Resolves(controls, names[1..][k], x);
        assert names[k + 1] == names[1..][k];
      }
    }
  }

  /** A link list without repeats stays without repeats. */
  lemma {:induction false} LinkControlsNoDuplicates(links: seq<nat>, controls: seq<Control>, names: seq<string>)
    requires NoDuplicates(links)
    ensures NoDuplicates(LinkControls(links, controls, names))
    decreases |names|
  {
    if names != [] {
      LinkControlsNoDuplicates(LinkControl(links, controls, names[0]), controls, names[1..]);
    }
  }

  /** When every selected name that resolves is linked already, nothing changes. */
  lemma {:induction false} LinkControlsNoChange(links: seq<nat>, controls: seq<Control>, names: seq<string>)
    requires forall k, x :: 0 <= k < |names| && Resolves(controls, names[k], x) ==> x in links
    ensures LinkControls(links, controls, names) == links
    decreases |names|
  {
    if names != [] {
      assert forall k, x :: 0 <= k < |names[1..]| && Resolves(controls, names[1..][k], x) ==> x in links by {
        forall k, x | 0 <= k < |names[1..]| && Resolves(controls, names[1..][k], x) ensures x in links {
          assert names[1..][k] == names[k + 1];
        }
      }
      var found := ControlIndex(controls, names[0]);
      if found.Some? {
        assert Resolves(controls, names[0], controls[found.value].id);
      }
      LinkControlsNoChange(links, controls, names[1..]);
    }
  }

  /** Names none of which has a control row leave the links as they are. */
  lemma MissingControlsSkipped(links: seq<nat>, controls: seq<Control>, names: seq<string>)
    requires forall k :: 0 <= k < |names| ==> ControlIndex(controls, names[k]).None?
    ensures LinkControls(links, controls, names) == links
  {
    LinkControlsNoChange(links, controls, names);
  }

  /** Running the loop a second time with the same names changes nothing. */
  lemma LinkControlsIdempotent(links: seq<nat>, controls: seq<Control>, names: seq<string>)
    ensures LinkControls(LinkControls(links, controls, names), controls, names)
         == LinkControls(links, controls, names)
  {
    var once := LinkControls(links, controls, names);
    forall k, x | 0 <= k < |names| && Resolves(controls, names[k], x) ensures x in once {
      LinkControlsMembers(links, controls, names, x);
    }
    LinkControlsNoChange(once, controls, names);
  }

  /** Mapping a finding twice with the same title gives the list mapping it once gives. */
  lemma MapControlsIdempotent(links: seq<nat>, controls: seq<Control>, title: string)
    ensures MapControls(MapControls(links, controls, title), controls, title) == MapControls(links, controls, title)
  {
    LinkControlsIdempotent(links, controls, SelectControlNames(title));
  }

  /** Links into a numbered control table stay within it. */
  lemma {:induction false} LinkControlsWithin(links: seq<nat>, controls: seq<Control>, names: seq<string>)
    requires ControlsNumbered(controls) && IdsWithin(links, |controls|)
    ensures IdsWithin(LinkControls(links, controls, names), |controls|)
    decreases |names|
  {
    if names != [] {
      LinkControlsWithin(LinkControl(links, controls, names[0]), controls, names[1..]);
    }
  }

  // ----------------------------------------------------------------- seeding

  /** Insert a framework unless one with that name exists. */
  function AddFramework(frameworks: seq<Framework>, name: string, version: string): seq<Framework>
  {
    if FrameworkIndex(frameworks, name).Some? then frameworks
    else frameworks + [Framework(|frameworks| + 1, name, version)]
  }

  /** The framework loop of seeding, over `data` in order. */
  function SeedFrameworks(frameworks: seq<Framework>, data: seq<(string, string)>): seq<Framework>
    decreases |data|
  {
    if data == [] then frameworks
    else SeedFrameworks(AddFramework(frameworks, data[0].0, data[0].1), data[1..])
  }

  /** The framework ids linked to a new control: for each citation in order,
      the framework of that name when the table has one. */
  function FrameworkLinks(frameworks: seq<Framework>, citations: seq<(string, string)>): seq<nat>
    decreases |citations|
  {
    if citations == [] then []
    else
      var first := match FrameworkIndex(frameworks, citations[0].0)
                   case None => []
                   case Some(j) => [frameworks[j].id];
      first + FrameworkLinks(frameworks, citations[1..])
  }

  /** Insert a control unless one with that name exists; a new control is
      linked to its cited frameworks. */
  function AddControl(controls: seq<Control>, frameworks: seq<Framework>, item: ControlSeed): seq<Control>
  {
    if ControlIndex(controls, item.controlName).Some? then controls
    else controls + [Control(|controls| + 1, item.controlName, item.ciaDomain,
                             FrameworkLinks(frameworks, CitationsFor(item.controlName)))]
  }

  /** The control loop of seeding, over `data` in order. */
  function SeedControls(controls: seq<Control>, frameworks: seq<Framework>, data: seq<ControlSeed>): seq<Control>
    decreases |data|
  {
    if data == [] then controls
    else SeedControls(AddControl(controls, frameworks, data[0]), frameworks, data[1..])
  }

  /** The framework and control tables after seeding. */
  function Seed(frameworks: seq<Framework>, controls: seq<Control>): (seq<Framework>, seq<Control>)
  {
    var seeded := SeedFrameworks(frameworks, FrameworkData);
    (seeded, SeedControls(controls, seeded, ControlData))
  }

  /** A name found in a table is found at the same row once rows are appended. */
  lemma FrameworkIndexExtended(frameworks: seq<Framework>, more: seq<Framework>, name: string)
    requires FrameworkIndex(frameworks, name).Some?
    ensures FrameworkIndex(frameworks + more, name) == FrameworkIndex(frameworks, name)
  {
    FirstOfExtended(frameworks, more, FrameworkNamed(name));
  }

  lemma ControlIndexExtended(controls: seq<Control>, more: seq<Control>, name: string)
    requires ControlIndex(controls, name).Some?
    ensures ControlIndex(controls + more, name) == ControlIndex(controls, name)
  {
    FirstOfExtended(controls, more, ControlNamed(name));
  }

  /** Seeding keeps the existing frameworks, unchanged and in place. */
  lemma {:induction false} SeedFrameworksExtends(frameworks: seq<Framework>, data: seq<(string, string)>)
    ensures |frameworks| <= |SeedFrameworks(frameworks, data)|
    ensures SeedFrameworks(frameworks, data)[..|frameworks|] == frameworks
    decreases |data|
  {
    if data != [] {
      var next := AddFramework(frameworks, data[0].0, data[0].1);
      SeedFrameworksExtends(next, data[1..]);
      assert next[..|frameworks|] == frameworks;
    }
  }

  /** A framework in the table before seeding is found at the same row after it. */
  lemma SeedFrameworksKeepsRow(frameworks: seq<Framework>, data: seq<(string, string)>, name: string)
    requires FrameworkIndex(frameworks, name).Some?
    ensures FrameworkIndex(SeedFrameworks(frameworks, data), name) == FrameworkIndex(frameworks, name)
  {
    var seeded := SeedFrameworks(frameworks, data);
    SeedFrameworksExtends(frameworks, data);
    assert seeded == frameworks + seeded[|frameworks|..];
    FrameworkIndexExtended(frameworks, seeded[|frameworks|..], name);
  }

  /** After seeding, every framework of the data is in the table. */
  lemma {:induction false} SeedFrameworksCovers(frameworks: seq<Framework>, data: seq<(string, string)>, k: nat)
    requires k < |data|
    ensures FrameworkIndex(SeedFrameworks(frameworks, data), data[k].0).Some?
    decreases |data|
  {
    var next := AddFramework(frameworks, data[0].0, data[0].1);
    if k == 0 {
      if FrameworkIndex(frameworks, data[0].0).None? {
        assert next[|frameworks|].name == data[0].0;
      }
      SeedFrameworksKeepsRow(next, data[1..], data[0].0);
    } else {
      SeedFrameworksCovers(next, data[1..], k - 1);
    }
  }

  /** Every framework seeding adds comes from the data, with its version, and
      no framework of that name existed before. */
  lemma {:induction false} SeedFrameworksAddsOnlyAbsent(frameworks: seq<Framework>, data: seq<(string, string)>)
    ensures forall j :: |frameworks| <= j < |SeedFrameworks(frameworks, data)| ==>
      FrameworkIndex(frameworks, SeedFrameworks(frameworks, data)[j].name).None? &&
      exists k :: 0 <= k < |data| && SeedFrameworks(frameworks, data)[j].name == data[k].0
                                  && SeedFrameworks(frameworks, data)[j].version == data[k].1
    decreases |data|
  {
    if data != [] {
      var next := AddFramework(frameworks, data[0].0, data[0].1);
      var seeded := SeedFrameworks(frameworks, data);
      SeedFrameworksAddsOnlyAbsent(next, data[1..]);
      SeedFrameworksExtends(next, data[1..]);
      forall j | |frameworks| <= j < |seeded|
        ensures FrameworkIndex(frameworks, seeded[j].name).None?
        ensures exists k :: 0 <= k < |data| && seeded[j].name == data[k].0 && seeded[j].version == data[k].1
      {
        if j < |next| {
          assert seeded[j] == next[j] == Framework(|frameworks| + 1, data[0].0, data[0].1);
        } else {
          var k :| 0 <= k < |data[1..]| && seeded[j].name == data[1..][k].0 && seeded[j].version == data[1..][k].1;
          assert data[k + 1] == data[1..][k];
          assert forall i :: 0 <= i < |frameworks| ==> frameworks[i] == next[i];
        }
      }
    }
  }

  /** Seeding keeps the framework table numbered and its names unique. */
  lemma {:induction false} SeedFrameworksKeepsInvariant(frameworks: seq<Framework>, data: seq<(string, string)>)
    requires FrameworksNumbered(frameworks) && UniqueFrameworkNames(frameworks)
    ensures FrameworksNumbered(SeedFrameworks(frameworks, data))
    ensures UniqueFrameworkNames(SeedFrameworks(frameworks, data))
    decreases |data|
  {
    if data != [] {
      var next := AddFramework(frameworks, data[0].0, data[0].1);
      SeedFrameworksKeepsInvariant(next, data[1..]);
    }
  }

  /** When every framework of the data exists already, seeding changes nothing. */
  lemma {:induction false} SeedFrameworksNoChange(frameworks: seq<Framework>, data: seq<(string, string)>)
    requires forall k :: 0 <= k < |data| ==> FrameworkIndex(frameworks, data[k].0).Some?
    ensures SeedFrameworks(frameworks, data) == frameworks
    decreases |data|
  {
    if data != [] {
      assert forall k :: 0 <= k < |data[1..]| ==> data[1..][k] == data[k + 1];
      SeedFrameworksNoChange(frameworks, data[1..]);
    }
  }

  /** Seeding the frameworks twice is seeding them once. */
  lemma SeedFrameworksIdempotent(frameworks: seq<Framework>, data: seq<(string, string)>)
    ensures SeedFrameworks(SeedFrameworks(frameworks, data), data) == SeedFrameworks(frameworks, data)
  {
    forall k | 0 <= k < |data| ensures FrameworkIndex(SeedFrameworks(frameworks, data), data[k].0).Some? {
      SeedFrameworksCovers(frameworks, data, k);
    }
    SeedFrameworksNoChange(SeedFrameworks(frameworks, data), data);
  }

  /** `name` names the framework with id `id`: the first framework row with
      that name has that id. */
  predicate NamesFramework(frameworks: seq<Framework>, name: string, id: nat)
  {
    var m := FrameworkIndex(frameworks, name);
    m.Some? && frameworks[m.value].id == id
  }

  /** The framework ids a new control gets are exactly the ids of the
      frameworks its citations name; a cited framework missing from the
      table adds nothing. */
  lemma {:induction false} FrameworkLinksMembers(frameworks: seq<Framework>, citations: seq<(string, string)>, x: nat)
    ensures x in FrameworkLinks(frameworks, citations) <==>
      exists k :: 0 <= k < |citations| && NamesFramework(frameworks, citations[k].0, x)
    decreases |citations|
  {
    if citations != [] {
      var rest := citations[1..];
      FrameworkLinksMembers(frameworks, rest, x);
      if x in FrameworkLinks(frameworks, citations) {
        if x in FrameworkLinks(frameworks, rest) {
          var k :| 0 <= k < |rest| && NamesFramework(frameworks, rest[k].0, x);
          assert citations[k + 1] == rest[k];
        } else {
          assert NamesFramework(frameworks, citations[0].0, x);
        }
      } else {
        forall k | 0 <= k < |citations| ensures !NamesFramework(frameworks, citations[k].0, x) {
          if k > 0 {
            assert rest[k - 1] == citations[k];
          }
        }
      }
    }
  }

  /** Citations of distinct frameworks give links without repeats. */
  lemma {:induction false} FrameworkLinksNoDuplicates(frameworks: seq<Framework>, citations: seq<(string, string)>)
    requires FrameworksNumbered(frameworks)
    requires forall k, m :: 0 <= k < m < |citations| ==> citations[k].0 != citations[m].0
    ensures NoDuplicates(FrameworkLinks(frameworks, citations))
    decreases |citations|
  {
    if citations != [] {
      var rest := citations[1..];
      FrameworkLinksNoDuplicates(frameworks, rest);
      var found := FrameworkIndex(frameworks, citations[0].0);
      if found.Some? {
        var x := frameworks[found.value].id;
        FrameworkLinksMembers(frameworks, rest, x);
        forall k | 0 <= k < |rest| ensures !NamesFramework(frameworks, rest[k].0, x) {
          assert rest[k] == citations[k + 1];
        }
      }
    }
  }

  /** The first citation contributes the framework it names, if any, ahead of the rest. */
  lemma FrameworkLinksFirst(frameworks: seq<Framework>, citations: seq<(string, string)>)
    requires citations != []
    ensures FrameworkLinks(frameworks, citations)
         == (if FrameworkIndex(frameworks, citations[0].0).Some?
             then [frameworks[FrameworkIndex(frameworks, citations[0].0).value].id] else [])
            + FrameworkLinks(frameworks, citations[1..])
  {
  }

  /** The links of a new control name rows of the framework table. */
  lemma {:induction false} FrameworkLinksWithin(frameworks: seq<Framework>, citations: seq<(string, string)>)
    requires FrameworksNumbered(frameworks)
    ensures IdsWithin(FrameworkLinks(frameworks, citations), |frameworks|)
    decreases |citations|
  {
    if citations != [] {
      FrameworkLinksWithin(frameworks, citations[1..]);
    }
  }

  /** Seeding keeps the existing controls, with their links, unchanged and in place. */
  lemma {:induction false} SeedControlsExtends(controls: seq<Control>, frameworks: seq<Framework>, data: seq<ControlSeed>)
    ensures |controls| <= |SeedControls(controls, frameworks, data)|
    ensures SeedControls(controls, frameworks, data)[..|controls|] == controls
    decreases |data|
  {
    if data != [] {
      var next := AddControl(controls, frameworks, data[0]);
      SeedControlsExtends(next, frameworks, data[1..]);
      assert next[..|controls|] == controls;
    }
  }

  lemma SeedControlsKeepsRow(controls: seq<Control>, frameworks: seq<Framework>, data: seq<ControlSeed>, name: string)
    requires ControlIndex(controls, name).Some?
    ensures ControlIndex(SeedControls(controls, frameworks, data), name) == ControlIndex(controls, name)
  {
    var seeded := SeedControls(controls, frameworks, data);
    SeedControlsExtends(controls, frameworks, data);
    assert seeded == controls + seeded[|controls|..];
    ControlIndexExtended(controls, seeded[|controls|..], name);
  }

  /** After seeding, every control of the data is in the table. */
  lemma {:induction false} SeedControlsCovers(controls: seq<Control>, frameworks: seq<Framework>, data: seq<ControlSeed>, k: nat)
    requires k < |data|
    ensures ControlIndex(SeedControls(controls, frameworks, data), data[k].controlName).Some?
    decreases |data|
  {
    var next := AddControl(controls, frameworks, data[0]);
    if k == 0 {
      if ControlIndex(controls, data[0].controlName).None? {
        assert next[|controls|].controlName == data[0].controlName;
      }
      SeedControlsKeepsRow(next, frameworks, data[1..], data[0].controlName);
    } else {
      SeedControlsCovers(next, frameworks, data[1..], k - 1);
    }
  }

  /** Every control seeding adds comes from the data, had no row of its name
      before, and is linked to the frameworks cited for it. */
  lemma {:induction false} SeedControlsAddsOnlyAbsent(controls: seq<Control>, frameworks: seq<Framework>, data: seq<ControlSeed>)
    ensures forall j :: |controls| <= j < |SeedControls(controls, frameworks, data)| ==>
      var c := SeedControls(controls, frameworks, data)[j];
      && ControlIndex(controls, c.controlName).None?
      && c.frameworks == FrameworkLinks(frameworks, CitationsFor(c.controlName))
      && exists k :: 0 <= k < |data| && c.controlName == data[k].controlName && c.ciaDomain == data[k].ciaDomain
    decreases |data|
  {
    if data != [] {
      var next := AddControl(controls, frameworks, data[0]);
      var seeded := SeedControls(controls, frameworks, data);
      SeedControlsAddsOnlyAbsent(next, frameworks, data[1..]);
      SeedControlsExtends(next, frameworks, data[1..]);
      forall j | |controls| <= j < |seeded|
        ensures ControlIndex(controls, seeded[j].controlName).None?
        ensures seeded[j].frameworks == FrameworkLinks(frameworks, CitationsFor(seeded[j].controlName))
        ensures exists k :: 0 <= k < |data| && seeded[j].controlName == data[k].controlName
                                            && seeded[j].ciaDomain == data[k].ciaDomain
      {
        if j < |next| {
          assert seeded[j] == next[j];
        } else {
          var k :| 0 <= k < |data[1..]| && seeded[j].controlName == data[1..][k].controlName
                                        && seeded[j].ciaDomain == data[1..][k].ciaDomain;
          assert data[k + 1] == data[1..][k];
          assert forall i :: 0 <= i < |controls| ==> controls[i] == next[i];
        }
      }
    }
  }

  /** Seeding keeps the control table numbered, its names unique, and the
      framework links of every control within the table and without repeats. */
  lemma {:induction false} SeedControlsKeepsInvariant(controls: seq<Control>, frameworks: seq<Framework>, data: seq<ControlSeed>)
    requires ControlsNumbered(controls) && UniqueControlNames(controls)
    requires FrameworksNumbered(frameworks) && UniqueFrameworkNames(frameworks)
    requires forall i :: 0 <= i < |controls| ==> IdsWithin(controls[i].frameworks, |frameworks|)
    requires forall i :: 0 <= i < |controls| ==> NoDuplicates(controls[i].frameworks)
    ensures ControlsNumbered(SeedControls(controls, frameworks, data))
    ensures UniqueControlNames(SeedControls(controls, frameworks, data))
    ensures forall i :: 0 <= i < |SeedControls(controls, frameworks, data)| ==>
      IdsWithin(SeedControls(controls, frameworks, data)[i].frameworks, |frameworks|)
    ensures forall i :: 0 <= i < |SeedControls(controls, frameworks, data)| ==>
      NoDuplicates(SeedControls(controls, frameworks, data)[i].frameworks)
    decreases |data|
  {
    if data != [] {
      var name := data[0].controlName;
      CitationsDistinct(name);
      FrameworkLinksWithin(frameworks, CitationsFor(name));
      FrameworkLinksNoDuplicates(frameworks, CitationsFor(name));
      SeedControlsKeepsInvariant(AddControl(controls, frameworks, data[0]), frameworks, data[1..]);
    }
  }

  /** Each control's citations name distinct frameworks. */
  lemma CitationsDistinct(name: string)
    ensures forall k, m :: 0 <= k < m < |CitationsFor(name)| ==> CitationsFor(name)[k].0 != CitationsFor(name)[m].0
  {
  }

  /** When every control of the data exists already, seeding changes nothing. */
  lemma {:induction false} SeedControlsNoChange(controls: seq<Control>, frameworks: seq<Framework>, data: seq<ControlSeed>)
    requires forall k :: 0 <= k < |data| ==> ControlIndex(controls, data[k].controlName).Some?
    ensures SeedControls(controls, frameworks, data) == controls
    decreases |data|
  {
    if data != [] {
      assert forall k :: 0 <= k < |data[1..]| ==> data[1..][k] == data[k + 1];
      SeedControlsNoChange(controls, frameworks, data[1..]);
    }
  }

  /** Seeding the controls twice is seeding them once. */
  lemma SeedControlsIdempotent(controls: seq<Control>, frameworks: seq<Framework>, data: seq<ControlSeed>)
    ensures SeedControls(SeedControls(controls, frameworks, data), frameworks, data)
         == SeedControls(controls, frameworks, data)
  {
    forall k | 0 <= k < |data|
      ensures ControlIndex(SeedControls(controls, frameworks, data), data[k].controlName).Some?
    {
      SeedControlsCovers(controls, frameworks, data, k);
    }
    SeedControlsNoChange(SeedControls(controls, frameworks, data), frameworks, data);
  }

  /** Running the whole seeding twice leaves the tables as running it once does. */
  lemma SeedIdempotent(frameworks: seq<Framework>, controls: seq<Control>)
    ensures Seed(Seed(frameworks, controls).0, Seed(frameworks, controls).1) == Seed(frameworks, controls)
  {
    var once := Seed(frameworks, controls);
    SeedFrameworksIdempotent(frameworks, FrameworkData);
    SeedControlsIdempotent(controls, once.0, ControlData);
  }

  /** The two seed frameworks in table order. */
  const SeededFrameworks: seq<Framework> := [Framework(1, NistName, "Rev 5"), Framework(2, IsoName, "2022")]

  /** Seeding an empty framework table adds both frameworks, numbered in table order. */
  lemma SeedEmptyFrameworks()
    ensures SeedFrameworks([], FrameworkData) == SeededFrameworks
  {
    assert |NistName| != |IsoName|;
    var one := AddFramework([], NistName, "Rev 5");
    assert one == [Framework(1, NistName, "Rev 5")];
    assert FrameworkIndex(one, IsoName).None?;
    var two := AddFramework(one, IsoName, "2022");
    assert two == SeededFrameworks;
    assert FrameworkData[1..] == [(IsoName, "2022")];
    assert SeedFrameworks(one, FrameworkData[1..]) == SeedFrameworks(two, []);
  }

  /** On the table seeding builds from empty (NIST 800-53 as id 1, ISO 27001 as
      id 2), each control's citations link framework 1 then 2. */
  lemma SeededLinks(name: string)
    requires name in ControlFrameworkMap
    ensures FrameworkLinks(SeededFrameworks, CitationsFor(name)) == [1, 2]
  {
    var fws := SeededFrameworks;
    assert |NistName| != |IsoName|;
    assert UniqueFrameworkNames(fws);
    FrameworkIndexOfUnique(fws, 0);
    FrameworkIndexOfUnique(fws, 1);
    var c := CitationsFor(name);
    assert c[0].0 == NistName && c[1].0 == IsoName && |c| == 2;
    assert FrameworkLinks(fws, c[1..][1..]) == [];
    assert FrameworkLinks(fws, c[1..]) == [2];
  }

  /** Seeding an empty store creates the NIST 800-53 and ISO 27001 frameworks
      and both seed controls, each control linked to both frameworks. */
  lemma SeedEmptyStore()
    ensures Seed([], []).0 == SeededFrameworks
    ensures Seed([], []).1 == [
      Control(1, PatchControl, "Integrity, Availability", [1, 2]),
      Control(2, AccessControl, "Confidentiality", [1, 2])]
  {
    SeedEmptyFrameworks();
    SeededLinks(PatchControl);
    SeededLinks(AccessControl);
    assert |PatchControl| != |AccessControl|;
    var fws := SeededFrameworks;
    var one := AddControl([], fws, ControlData[0]);
    assert one == [Control(1, PatchControl, "Integrity, Availability", [1, 2])];
    assert ControlIndex(one, AccessControl).None?;
    var two := AddControl(one, fws, ControlData[1]);
    assert ControlData[1..] == [ControlData[1]];
    assert SeedControls(one, fws, ControlData[1..]) == SeedControls(two, fws, []);
  }
}
