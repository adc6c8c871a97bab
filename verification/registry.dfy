/** The dimension registry (`cotes_info`): one profile per dimension name,
    created with defaults when a name is first parsed, merged from or replaced
    by an imported JSON document, and the source of the profile groups. */
module Registry {
  import opened Base
  import opened Sheet
  import opened CoteType

  /** One key of a profile dictionary: missing, present with `None`, or set. */
  datatype Field<+T> = Absent | Null | Val(v: T)

  /** A profile as stored: every key may be missing, because imported JSON
      entries are stored as given. */
  datatype Profile = Profile(
    kind: Field<string>,         // "Type_Cote"
    gps: Field<seq<string>>,     // "Tolérances_GPS"
    group: Field<int>,           // "Groupe_Profil"
    position: Field<string>,     // "Position_Angulaire"
    angle: Field<real>)          // "Angle_Degres"

  type Registry = map<string, Profile>

  const NotSpecified: string := "Non sp\U{E9}cifi\U{E9}"

  /** The entry created for a newly seen name. */
  function DefaultProfile(name: string): Profile
  {
    Profile(Val(DetectType(name)), Val([]), Null, Val(NotSpecified), Null)
  }

  /** The distinct non-null names of a column. */
  function NamesOf(names: seq<string>): set<string>
  {
    set n | n in names && !IsNull(n)
  }

  // ---------------------------------------------------------------------
  // Extension at parse time
  // ---------------------------------------------------------------------

  /** Every non-null name not yet registered gets a default profile; existing
      profiles, operator edits included, are kept as they are. */
  function Extend(reg: Registry, names: seq<string>): (r: Registry)
    ensures r.Keys == reg.Keys + NamesOf(names)
    ensures forall n :: n in reg ==> r[n] == reg[n]
    ensures forall n :: n in r && n !in reg ==> r[n] == DefaultProfile(n)
  {
    reg + map n | n in NamesOf(names) && n !in reg :: DefaultProfile(n)
  }

  /** Parsing the same names twice registers nothing new the second time. */
  lemma {:induction false} ExtendIdempotent(reg: Registry, names: seq<string>)
    ensures Extend(Extend(reg, names), names) == Extend(reg, names)
  {
    var once := Extend(reg, names);
    var twice := Extend(once, names);
    assert twice.Keys == once.Keys;
    forall n | n in once ensures twice[n] == once[n] { }
  }

  /** The development page's initialisation: only an absent or empty registry
      is (re)built from the table's names; a non-empty one is left alone. */
  function InitIfEmpty(reg: Option<Registry>, names: seq<string>): (r: Registry)
    ensures reg.Some? && |reg.value| > 0 ==> r == reg.value
    ensures (reg.None? || |reg.value| == 0) ==>
      r.Keys == NamesOf(names) && forall n :: n in r ==> r[n] == DefaultProfile(n)
  {
    if reg.Some? && |reg.value| > 0 then reg.value
    else map n | n in NamesOf(names) :: DefaultProfile(n)
  }

  /** Initialising an empty registry is the same as extending it. */
  lemma InitIsExtensionOfEmpty(reg: Option<Registry>, names: seq<string>)
    requires reg.None? || |reg.value| == 0
    ensures InitIfEmpty(reg, names) == Extend(map[], names)
  {
  }

  // ---------------------------------------------------------------------
  // JSON import (merge)
  // ---------------------------------------------------------------------

  /** `dict.update` on one key: a key present in the import wins. */
  function Over<T>(before: Field<T>, given: Field<T>): Field<T>
  {
    if given.Absent? then before else given
  }

  /** `profile.update(imported)`. */
  function Update(p: Profile, q: Profile): Profile
  {
    Profile(Over(p.kind, q.kind), Over(p.gps, q.gps), Over(p.group, q.group),
            Over(p.position, q.position), Over(p.angle, q.angle))
  }

  /** A JSON document: `(name, profile)` entries in file order. */
  type Doc = seq<(string, Profile)>

  function DocNames(doc: Doc): set<string>
  {
    set i | 0 <= i < |doc| :: doc[i].0
  }

  /** Keys of a JSON object are distinct. */
  predicate DistinctNames(doc: Doc)
  {
    forall i, j :: 0 <= i < j < |doc| ==> doc[i].0 != doc[j].0
  }

  function ImportOne(reg: Registry, e: (string, Profile)): Registry
  {
    if e.0 !in reg then reg[e.0 := e.1] else reg[e.0 := Update(reg[e.0], e.1)]
  }

  /** The development page's import: absent names are inserted as given,
      present ones are updated key by key. */
  function Import(reg: Registry, doc: Doc): (r: Registry)
    ensures r.Keys == reg.Keys + DocNames(doc)
    ensures forall n :: n in reg && n !in DocNames(doc) ==> r[n] == reg[n]
    decreases |doc|
  {
    if |doc| == 0 then reg
    else
      var r := Import(ImportOne(reg, doc[0]), doc[1..]);
      assert DocNames(doc) == {doc[0].0} + DocNames(doc[1..]) by {
        forall n | n in DocNames(doc) ensures n in {doc[0].0} + DocNames(doc[1..]) {
          var i :| 0 <= i < |doc| && doc[i].0 == n;
          if i > 0 { assert doc[1..][i - 1].0 == n; }
        }
      }
      r
  }

  /** What an import leaves in each imported name: the imported profile for a
      new name, the key-by-key update for a known one. */
  lemma {:induction false} ImportEntries(reg: Registry, doc: Doc, i: nat)
    requires DistinctNames(doc) && i < |doc|
    ensures doc[i].0 !in reg ==> Import(reg, doc)[doc[i].0] == doc[i].1
    ensures doc[i].0 in reg ==> Import(reg, doc)[doc[i].0] == Update(reg[doc[i].0], doc[i].1)
    decreases |doc|
  {
    var n := doc[i].0;
    var reg1 := ImportOne(reg, doc[0]);
    var rest := doc[1..];
    assert Import(reg, doc) == Import(reg1, rest);
    if i == 0 {
      forall k | 0 <= k < |rest| ensures rest[k].0 != n {
        assert rest[k] == doc[k + 1];
      }
      assert n !in DocNames(rest);
      assert n in reg1;
      assert Import(reg1, rest)[n] == reg1[n];
    } else {
      assert rest[i - 1] == doc[i];
      assert n != doc[0].0;
      assert (n in reg1) <==> (n in reg);
      assert n in reg ==> reg1[n] == reg[n];
      assert DistinctNames(rest) by {
        forall a, b | 0 <= a < b < |rest| ensures rest[a].0 != rest[b].0 {
          assert rest[a] == doc[a + 1] && rest[b] == doc[b + 1];
        }
      }
      ImportEntries(reg1, rest, i - 1);
    }
  }

  /** A key-by-key update applied twice is applied once. */
  lemma UpdateIdempotent(p: Profile, q: Profile)
    ensures Update(Update(p, q), q) == Update(p, q)
  {
  }

  /** Importing the same document twice leaves the registry as one import did. */
  lemma {:induction false} ImportIdempotent(reg: Registry, doc: Doc)
    requires DistinctNames(doc)
    ensures Import(Import(reg, doc), doc) == Import(reg, doc)
  {
    var once := Import(reg, doc);
    var twice := Import(once, doc);
    assert twice.Keys == once.Keys;
    forall n | n in once
      ensures twice[n] == once[n]
    {
      if n in DocNames(doc) {
        var i :| 0 <= i < |doc| && doc[i].0 == n;
        var q := doc[i].1;
        ImportEntries(reg, doc, i);
        ImportEntries(once, doc, i);
        assert twice[n] == Update(once[n], q);
        if n in reg {
          assert once[n] == Update(reg[n], q);
          UpdateIdempotent(reg[n], q);
        } else {
          assert once[n] == q;
          assert Update(q, q) == q;
        }
      }
    }
    assert twice == once;
  }

  // ---------------------------------------------------------------------
  // Profile groups rebuilt from the Groupe_Profil tags
  // ---------------------------------------------------------------------

  /** `if group:` — a group tag counts when it is set and not 0. */
  predicate Tagged(p: Profile)
  {
    p.group.Val? && p.group.v != 0
  }

  /** The names of the document carrying tag `t`, in document order. */
  function NamesWithTag(doc: Doc, t: int): seq<string>
    decreases |doc|
  {
    if |doc| == 0 then []
    else
      var e := doc[|doc| - 1];
      NamesWithTag(doc[..|doc| - 1], t) + (if Tagged(e.1) && e.1.group.v == t then [e.0] else [])
  }

  /** The distinct tags of the document in order of first appearance. */
  function TagOrder(doc: Doc): seq<int>
    decreases |doc|
  {
    if |doc| == 0 then []
    else
      var e := doc[|doc| - 1];
      var prior := TagOrder(doc[..|doc| - 1]);
      prior + (if Tagged(e.1) && e.1.group.v !in prior then [e.1.group.v] else [])
  }

  /** The keys of the group dictionary, in insertion order. */
  function TagsOf(groups: seq<(int, seq<string>)>): (r: seq<int>)
    ensures |r| == |groups|
    ensures forall k :: 0 <= k < |groups| ==> r[k] == groups[k].0
  {
    if |groups| == 0 then [] else [groups[0].0] + TagsOf(groups[1..])
  }

  /** No tag keys two groups. */
  predicate DistinctTags(groups: seq<(int, seq<string>)>)
  {
    forall i, j :: 0 <= i < j < |groups| ==> groups[i].0 != groups[j].0
  }

  /** `groupes.setdefault(tag, []).append(name)`. */
  function AddTo(groups: seq<(int, seq<string>)>, t: int, name: string): seq<(int, seq<string>)>
  {
    if |groups| == 0 then [(t, [name])]
    else if groups[0].0 == t then [(t, groups[0].1 + [name])] + groups[1..]
    else [groups[0]] + AddTo(groups[1..], t, name)
  }

  /** Appending to a group opens that group at the end when its tag is new
      and keeps the tag order otherwise. */
  lemma {:induction false} AddToTags(groups: seq<(int, seq<string>)>, t: int, name: string)
    ensures TagsOf(AddTo(groups, t, name)) == TagsOf(groups) + (if t in TagsOf(groups) then [] else [t])
  {
    if |groups| > 0 && groups[0].0 != t {
      AddToTags(groups[1..], t, name);
    }
  }

  /** Appending to a group keeps every group of another tag. */
  lemma {:induction false} AddToOthers(groups: seq<(int, seq<string>)>, t: int, name: string)
    ensures |AddTo(groups, t, name)| >= |groups|
    ensures forall k :: 0 <= k < |groups| && groups[k].0 != t ==> AddTo(groups, t, name)[k] == groups[k]
  {
    if |groups| > 0 && groups[0].0 != t {
      AddToOthers(groups[1..], t, name);
    }
  }

  /** Appending to a group puts the name at the end of the group of its tag. */
  lemma {:induction false} AddToMembers(groups: seq<(int, seq<string>)>, t: int, name: string)
    requires DistinctTags(groups)
    ensures forall k :: 0 <= k < |AddTo(groups, t, name)| && AddTo(groups, t, name)[k].0 == t ==>
      AddTo(groups, t, name)[k].1 == (if k < |groups| then groups[k].1 else []) + [name]
  {
    if |groups| > 0 && groups[0].0 != t {
      AddToMembers(groups[1..], t, name);
    }
  }

  lemma AddToDistinct(groups: seq<(int, seq<string>)>, t: int, name: string)
    requires DistinctTags(groups)
    ensures DistinctTags(AddTo(groups, t, name))
  {
    AddToTags(groups, t, name);
    var r := AddTo(groups, t, name);
    assert forall k :: 0 <= k < |r| ==> TagsOf(r)[k] == r[k].0;
    assert forall k :: 0 <= k < |groups| ==> TagsOf(groups)[k] == groups[k].0;
  }

  lemma AddToSpec(groups: seq<(int, seq<string>)>, t: int, name: string)
    requires DistinctTags(groups)
    ensures DistinctTags(AddTo(groups, t, name))
    ensures TagsOf(AddTo(groups, t, name)) == TagsOf(groups) + (if t in TagsOf(groups) then [] else [t])
    ensures forall k :: 0 <= k < |groups| && groups[k].0 != t ==> AddTo(groups, t, name)[k] == groups[k]
    ensures forall k :: 0 <= k < |AddTo(groups, t, name)| && AddTo(groups, t, name)[k].0 == t ==>
      AddTo(groups, t, name)[k].1 == (if k < |groups| then groups[k].1 else []) + [name]
  {
    AddToTags(groups, t, name);
    AddToOthers(groups, t, name);
    AddToMembers(groups, t, name);
    AddToDistinct(groups, t, name);
  }

  /** The dictionary `groupes` built while reading the document. */
  function TagGroups(doc: Doc): (r: seq<(int, seq<string>)>)
    ensures DistinctTags(r)
    decreases |doc|
  {
    if |doc| == 0 then []
    else
      var e := doc[|doc| - 1];
      var g := TagGroups(doc[..|doc| - 1]);
      if Tagged(e.1) then AddToSpec(g, e.1.group.v, e.0); AddTo(g, e.1.group.v, e.0) else g
  }

  /** `list(groupes.values())`. */
  function RebuildGroups(doc: Doc): seq<seq<string>>
  {
    var g := TagGroups(doc);
    seq(|g|, k requires 0 <= k < |g| => g[k].1)
  }

  /** The rebuilt groups are keyed by the tags in order of first appearance,
      and each group lists exactly the names carrying its tag, in document
      order; untagged names belong to no group. */
  lemma {:induction false} TagGroupsSpec(doc: Doc)
    ensures TagsOf(TagGroups(doc)) == TagOrder(doc)
    ensures forall k :: 0 <= k < |TagGroups(doc)| ==>
      TagGroups(doc)[k].1 == NamesWithTag(doc, TagGroups(doc)[k].0)
    decreases |doc|
  {
    if |doc| > 0 {
      var pre := doc[..|doc| - 1];
      var e := doc[|doc| - 1];
      TagGroupsSpec(pre);
      var g := TagGroups(pre);
      if Tagged(e.1) {
        AddToSpec(g, e.1.group.v, e.0);
      }
      forall k | 0 <= k < |TagGroups(doc)|
        ensures TagGroups(doc)[k].1 == NamesWithTag(doc, TagGroups(doc)[k].0)
      {
        var r := TagGroups(doc);
        if Tagged(e.1) {
          var t := e.1.group.v;
          AddToSpec(g, t, e.0);
          assert TagsOf(r)[k] == r[k].0;
          if k < |g| {
            assert TagsOf(g)[k] == g[k].0;
          }
          if r[k].0 == t && k >= |g| {
            // a new group opened by this entry: no earlier name had its tag
            assert t !in TagsOf(g);
            TagOrderComplete(pre, t);
          }
        }
      }
    }
  }

  /** A tag that is not among the first appearances was never used. */
  lemma {:induction false} TagOrderComplete(doc: Doc, t: int)
    requires t !in TagOrder(doc)
    ensures NamesWithTag(doc, t) == []
    decreases |doc|
  {
    if |doc| > 0 {
      var pre := doc[..|doc| - 1];
      TagOrderComplete(pre, t);
    }
  }

  /** A name appears in some rebuilt group exactly when it carries a tag. */
  lemma {:induction false} GroupedIffTagged(doc: Doc, name: string)
    ensures (exists k :: 0 <= k < |RebuildGroups(doc)| && name in RebuildGroups(doc)[k])
        <==> (exists i :: 0 <= i < |doc| && doc[i].0 == name && Tagged(doc[i].1))
  {
    TagGroupsSpec(doc);
    var g := TagGroups(doc);
    if exists i :: 0 <= i < |doc| && doc[i].0 == name && Tagged(doc[i].1) {
      var i :| 0 <= i < |doc| && doc[i].0 == name && Tagged(doc[i].1);
      var t := doc[i].1.group.v;
      InTagOrder(doc, i);
      var k :| 0 <= k < |g| && g[k].0 == t;
      NamedWithTag(doc, i);
      assert name in RebuildGroups(doc)[k];
    }
    if exists k :: 0 <= k < |RebuildGroups(doc)| && name in RebuildGroups(doc)[k] {
      var k :| 0 <= k < |RebuildGroups(doc)| && name in RebuildGroups(doc)[k];
      WithTagIsTagged(doc, g[k].0, name);
    }
  }

  lemma {:induction false} InTagOrder(doc: Doc, i: nat)
    requires i < |doc| && Tagged(doc[i].1)
    ensures doc[i].1.group.v in TagOrder(doc)
    ensures exists k :: 0 <= k < |TagGroups(doc)| && TagGroups(doc)[k].0 == doc[i].1.group.v
    decreases |doc|
  {
    TagGroupsSpec(doc);
    var pre := doc[..|doc| - 1];
    if i < |doc| - 1 {
      assert pre[i] == doc[i];
      InTagOrder(pre, i);
    }
    var t := doc[i].1.group.v;
    assert t in TagsOf(TagGroups(doc));
    var k :| 0 <= k < |TagsOf(TagGroups(doc))| && TagsOf(TagGroups(doc))[k] == t;
    assert TagGroups(doc)[k].0 == t;
  }

  lemma {:induction false} NamedWithTag(doc: Doc, i: nat)
    requires i < |doc| && Tagged(doc[i].1)
    ensures doc[i].0 in NamesWithTag(doc, doc[i].1.group.v)
    decreases |doc|
  {
    var pre := doc[..|doc| - 1];
    if i < |doc| - 1 {
      assert pre[i] == doc[i];
      NamedWithTag(pre, i);
    }
  }

  lemma {:induction false} WithTagIsTagged(doc: Doc, t: int, name: string)
    requires name in NamesWithTag(doc, t)
    ensures exists i :: 0 <= i < |doc| && doc[i].0 == name && Tagged(doc[i].1)
    decreases |doc|
  {
    var pre := doc[..|doc| - 1];
    if name in NamesWithTag(pre, t) {
      WithTagIsTagged(pre, t, name);
      var i :| 0 <= i < |pre| && pre[i].0 == name && Tagged(pre[i].1);
      assert doc[i] == pre[i];
    } else {
      assert doc[|doc| - 1].0 == name && Tagged(doc[|doc| - 1].1);
    }
  }

  /** The comparison page's JSON reload: the registry is replaced wholesale
      by the document and the groups are rebuilt from its tags. */
  function Reload(doc: Doc): (s: Session)
    ensures s.registry == ToRegistry(doc)
    ensures |s.groups| == |TagOrder(doc)|
    ensures forall k :: 0 <= k < |s.groups| ==> s.groups[k] == NamesWithTag(doc, TagOrder(doc)[k])
  {
    TagGroupsSpec(doc);
    var g := TagGroups(doc);
    assert forall k :: 0 <= k < |g| ==> TagsOf(g)[k] == g[k].0;
    Session(ToRegistry(doc), RebuildGroups(doc))
  }

  /** The object `json.load` builds: entries in file order, a repeated key
      keeping its last value, nothing merged. */
  function ToRegistry(doc: Doc): (r: Registry)
    ensures r.Keys == DocNames(doc)
    decreases |doc|
  {
    if |doc| == 0 then map[]
    else
      var n := |doc| - 1;
      assert DocNames(doc) == DocNames(doc[..n]) + {doc[n].0} by {
        forall m | m in DocNames(doc) ensures m in DocNames(doc[..n]) + {doc[n].0} {
          var i :| 0 <= i < |doc| && doc[i].0 == m;
          if i < n { assert doc[..n][i].0 == m; }
        }
      }
      ToRegistry(doc[..n])[doc[n].0 := doc[n].1]
  }

  /** Each name of the reloaded registry holds the profile of its last entry
      in the document, as given. */
  lemma {:induction false} ToRegistryEntries(doc: Doc, i: nat)
    requires i < |doc| && forall j :: i < j < |doc| ==> doc[j].0 != doc[i].0
    ensures ToRegistry(doc)[doc[i].0] == doc[i].1
    decreases |doc|
  {
    var n := |doc| - 1;
    if i < n {
      assert forall j :: i < j < n ==> doc[..n][j] == doc[j];
      ToRegistryEntries(doc[..n], i);
    }
  }

  /** With distinct names, reloading is importing into an empty registry. */
  lemma ReloadIsImportIntoEmpty(doc: Doc)
    requires DistinctNames(doc)
    ensures Reload(doc).registry == Import(map[], doc)
  {
    var r := ToRegistry(doc);
    var m := Import(map[], doc);
    forall n | n in r ensures r[n] == m[n] {
      var i :| 0 <= i < |doc| && doc[i].0 == n;
      ToRegistryEntries(doc, i);
      ImportEntries(map[], doc, i);
    }
  }

  // ---------------------------------------------------------------------
  // Session: registry and linked groups
  // ---------------------------------------------------------------------

  /** The state the pages share: the registry and the list of linked groups. */
  datatype Session = Session(registry: Registry, groups: seq<seq<string>>)

  /** The group reset button: the group list is emptied; the registry, and so
      every profile's Groupe_Profil tag, is left as it was. */
  function ResetGroups(s: Session): (r: Session)
    ensures r.groups == [] && r.registry == s.registry
  {
    s.(groups := [])
  }

  // ---------------------------------------------------------------------
  // Registry table view and type filter
  // ---------------------------------------------------------------------

  /** One row of the registry table: the name and its `Type_Cote` cell
      (`info.get("Type_Cote", "")`; an explicit null stays missing). */
  datatype ViewRow = ViewRow(name: string, kind: Option<string>)

  function ViewOf(name: string, p: Profile): ViewRow
  {
    ViewRow(name, match p.kind case Absent => Some("") case Null => None case Val(k) => Some(k))
  }

  const AllTypes: string := "Tous"

  function RowsOfKind(view: seq<ViewRow>, kind: string): (r: seq<ViewRow>)
    ensures forall x :: x in r <==> x in view && x.kind == Some(kind)
    ensures |r| <= |view|
  {
    if |view| == 0 then []
    else (if view[0].kind == Some(kind) then [view[0]] else []) + RowsOfKind(view[1..], kind)
  }

  /** The type filter: "Tous" shows every row, any other choice exactly the
      rows of that type. An empty table has no Type_Cote column to filter
      on, so any other choice fails there (None). */
  function TypeFilter(view: seq<ViewRow>, selected: string): (r: Option<seq<ViewRow>>)
    ensures selected == AllTypes ==> r == Some(view)
    ensures selected != AllTypes ==> (r.None? <==> |view| == 0)
    ensures selected != AllTypes && r.Some? ==>
      forall x :: x in r.value <==> x in view && x.kind == Some(selected)
  {
    if selected == AllTypes then Some(view)
    else if |view| == 0 then None
    else Some(RowsOfKind(view, selected))
  }
}
