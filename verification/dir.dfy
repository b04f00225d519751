/** Directories of kernel/fs.c: sequences of entries searched and extended in place. */
module Dirs {
  import opened Wrappers

  const DIRSIZ := 14

  // ----- Names -----

  /** Character i of a C string. */
  function At(s: string, i: nat): char {
    if i < |s| then s[i] else '\0'
  }

  /** The name a buffer stands for: up to the first NUL, at most DIRSIZ characters. */
  function Cut(s: string): string {
    CutFrom(s, 0)
  }

  function CutFrom(s: string, i: nat): string
    decreases DIRSIZ - i
  {
    if i >= DIRSIZ || At(s, i) == '\0' then "" else [s[i]] + CutFrom(s, i + 1)
  }

  /** The beginning of the buffer up to the first NUL, or fourteen characters of it. */
  lemma {:induction false} CutIs(s: string, i: nat)
    requires i <= |s| && i <= 14
    ensures
      var c := CutFrom(s, i);
      && |c| <= 14 - i && c <= s[i..] && '\0' !in c
      && (|c| < 14 - i && i + |c| < |s| ==> s[i + |c|] == '\0')
    decreases 14 - i
  {
    if i < 14 && At(s, i) != '\0' {
      CutIs(s, i + 1);
      assert s[i..] == [s[i]] + s[i + 1..];
    }
  }

  /** namecmp: strncmp over DIRSIZ characters. */
  method NameCmp(p: string, q: string) returns (same: bool)
    ensures same <==> Cut(p) == Cut(q)
  {
    var i := 0;
    while i < DIRSIZ && At(p, i) != '\0' && At(p, i) == At(q, i)
      invariant 0 <= i <= DIRSIZ
      invariant Cut(p) == Cut(q) <==> CutFrom(p, i) == CutFrom(q, i)
    {
      FirstSame(p, q, i);
      i := i + 1;
    }
    if i == DIRSIZ {
      return true;
    }
    FirstDiffers(p, q, i);
    same := At(p, i) == At(q, i);
  }

  lemma FirstSame(p: string, q: string, i: nat)
    requires i < DIRSIZ && At(p, i) != '\0' && At(p, i) == At(q, i)
    ensures CutFrom(p, i) == CutFrom(q, i) <==> CutFrom(p, i + 1) == CutFrom(q, i + 1)
  {
    var a, b := CutFrom(p, i), CutFrom(q, i);
    assert a[1..] == CutFrom(p, i + 1) && b[1..] == CutFrom(q, i + 1);
  }

  lemma FirstDiffers(p: string, q: string, i: nat)
    requires i < DIRSIZ && (At(p, i) == '\0' || At(p, i) != At(q, i))
    ensures CutFrom(p, i) == CutFrom(q, i) <==> At(p, i) == At(q, i)
  {
    var a, b := CutFrom(p, i), CutFrom(q, i);
    assert At(p, i) != '\0' ==> a[0] == At(p, i);
    assert At(q, i) != '\0' ==> b[0] == At(q, i);
  }

  /** strncpy into the name field: DIRSIZ characters, padded with NULs. */
  method NameCopy(name: string) returns (field: string)
    ensures |field| == DIRSIZ && Cut(field) == Cut(name)
    ensures forall k :: 0 <= k < |field| ==> field[k] == '\0' || (k < |name| && field[k] == name[k])
  {
    field := "";
    var i := 0;
    while i < DIRSIZ && At(name, i) != '\0'
      invariant 0 <= i <= DIRSIZ && |field| == i && forall k :: 0 <= k < i ==> k < |name| && field[k] == name[k] != '\0'
    {
      field := field + [name[i]];
      i := i + 1;
    }
    ghost var n := i;
    while i < DIRSIZ
      invariant n <= i <= DIRSIZ && |field| == i
      invariant forall k :: 0 <= k < n ==> k < |name| && field[k] == name[k] != '\0'
      invariant forall k :: n <= k < i ==> field[k] == '\0'
    {
      field := field + ['\0'];
      i := i + 1;
    }
    SameCut(field, name, n, 0);
  }

  lemma {:induction false} SameCut(a: string, b: string, n: nat, i: nat)
    requires i <= n <= DIRSIZ && (n < DIRSIZ ==> At(a, n) == At(b, n) == '\0')
    requires forall k :: i <= k < n ==> k < |a| && k < |b| && a[k] == b[k] != '\0'
    ensures CutFrom(a, i) == CutFrom(b, i)
    decreases n - i
  {
    if i < n {
      SameCut(a, b, n, i + 1);
    }
  }

  // ----- Directories as maps -----

  /** One directory slot; inode number 0 marks it unused. */
  datatype Dirent = Dirent(inum: nat, name: string)

  const UNUSED: Dirent := Dirent(0, "")

  predicate Used(e: Dirent) {
    e.inum != 0
  }

  /** No two used slots have the same name. */
  ghost predicate Unique(slots: seq<Dirent>) {
    forall j, k :: 0 <= j < k < |slots| && Used(slots[j]) && Used(slots[k]) ==> Cut(slots[j].name) != Cut(slots[k].name)
  }

  /** The finite map a directory stands for. */
  ghost function DirMap(slots: seq<Dirent>): map<string, nat> {
    if slots == [] then map[]
    else
      var rest, e := DirMap(slots[..|slots| - 1]), slots[|slots| - 1];
      if Used(e) then rest[Cut(e.name) := e.inum] else rest
  }

  /** In a directory with unique names the map is what a search finds. */
  lemma {:induction false} MapIsSearch(slots: seq<Dirent>, n: string)
    requires Unique(slots)
    ensures n in DirMap(slots) <==> exists k :: 0 <= k < |slots| && Used(slots[k]) && Cut(slots[k].name) == n
    ensures forall k :: 0 <= k < |slots| && Used(slots[k]) && Cut(slots[k].name) == n ==> n in DirMap(slots) && DirMap(slots)[n] == slots[k].inum
  {
    if slots != [] {
      var m := |slots| - 1;
      MapIsSearch(slots[..m], n);
      assert forall k :: 0 <= k < m ==> slots[..m][k] == slots[k];
    }
  }

  /** dirlookup. */
  method Dirlookup(slots: seq<Dirent>, name: string) returns (r: Option<nat>)
    requires Unique(slots)
    ensures r.None? <==> Cut(name) !in DirMap(slots)
    ensures r.Some? ==> r.value < |slots| && Used(slots[r.value]) && Cut(slots[r.value].name) == Cut(name)
    ensures r.Some? ==> DirMap(slots)[Cut(name)] == slots[r.value].inum
  {
    hide DirMap, Cut;
    MapIsSearch(slots, Cut(name));
    var off := 0;
    while off < |slots|
      invariant 0 <= off <= |slots|
      invariant forall k :: 0 <= k < off ==> !(Used(slots[k]) && Cut(slots[k].name) == Cut(name))
    {
      if slots[off].inum != 0 {
        var same := NameCmp(name, slots[off].name);
        if same {
          return Some(off);
        }
      }
      off := off + 1;
    }
    r := None;
  }

  /** dirlink: the name is added unless it is there or there is no room for one more slot. */
  method Dirlink(slots: seq<Dirent>, name: string, inum: nat, room: bool) returns (ok: bool, slots': seq<Dirent>)
    requires Unique(slots) && inum != 0
    ensures Unique(slots')
    ensures ok <==> Cut(name) !in DirMap(slots) && (room || exists k :: 0 <= k < |slots| && !Used(slots[k]))
    ensures !ok ==> slots' == slots
    ensures ok ==> DirMap(slots') == DirMap(slots)[Cut(name) := inum]
    ensures ok ==> Linked(slots, slots', Cut(name), inum)
  {
    hide DirMap, Cut, Unique;
    slots' := slots;
    var found := Dirlookup(slots, name);
    if found.Some? {
      return false, slots;
    }
    var off := 0;
    while off < |slots| && slots[off].inum != 0
      invariant 0 <= off <= |slots| && forall k :: 0 <= k < off ==> Used(slots[k])
    {
      off := off + 1;
    }
    var field := NameCopy(name);
    var de := Dirent(inum, field);
    if off == |slots| {
      if !room {
        return false, slots;
      }
      slots' := slots + [de];
      Added(slots, slots', off, de);
    } else {
      slots' := slots[off := de];
      Added(slots, slots', off, de);
    }
    ok := true;
  }

  /** One slot, unused before or new, now holds the entry. */
  ghost predicate Linked(slots: seq<Dirent>, slots': seq<Dirent>, n: string, inum: nat) {
    exists k: nat :: k < |slots'| && slots'[k].inum == inum && Cut(slots'[k].name) == n && Placed(slots, slots', k)
  }

  ghost predicate Placed(slots: seq<Dirent>, slots': seq<Dirent>, k: nat) {
    k < |slots'| && ((k < |slots| && !Used(slots[k]) && slots' == slots[k := slots'[k]]) || (k == |slots| && slots' == slots + [slots'[k]]))
  }

  lemma Added(slots: seq<Dirent>, slots': seq<Dirent>, k: nat, e: Dirent)
    requires Unique(slots) && Placed(slots, slots', k) && slots'[k] == e && Used(e) && Cut(e.name) !in DirMap(slots)
    ensures Unique(slots') && DirMap(slots') == DirMap(slots)[Cut(e.name) := e.inum]
    ensures Linked(slots, slots', Cut(e.name), e.inum)
  {
    hide Cut, DirMap;
    AddedUnique(slots, slots', k, e);
    var n := Cut(e.name);
    MapIsSearch(slots', n);
    forall m: string
      ensures m in DirMap(slots') <==> m in DirMap(slots)[n := e.inum]
      ensures m in DirMap(slots') ==> DirMap(slots')[m] == DirMap(slots)[n := e.inum][m]
    {
      AddedAt(slots, slots', k, e, m);
    }
  }

  lemma AddedUnique(slots: seq<Dirent>, slots': seq<Dirent>, k: nat, e: Dirent)
    requires Unique(slots) && Placed(slots, slots', k) && slots'[k] == e && Used(e) && Cut(e.name) !in DirMap(slots)
    ensures Unique(slots')
  {
    hide Cut, DirMap;
    MapIsSearch(slots, Cut(e.name));
  }

  lemma AddedAt(slots: seq<Dirent>, slots': seq<Dirent>, k: nat, e: Dirent, m: string)
    requires Unique(slots) && Unique(slots') && Placed(slots, slots', k) && slots'[k] == e && Used(e) && Cut(e.name) !in DirMap(slots)
    ensures m in DirMap(slots') <==> m in DirMap(slots) || m == Cut(e.name)
    ensures m in DirMap(slots') ==> DirMap(slots')[m] == if m == Cut(e.name) then e.inum else DirMap(slots)[m]
  {
    hide Cut, DirMap;
    MapIsSearch(slots, m);
    MapIsSearch(slots', m);
    if m == Cut(e.name) {
      assert Used(slots'[k]) && Cut(slots'[k].name) == m;
    } else {
      if j :| 0 <= j < |slots| && Used(slots[j]) && Cut(slots[j].name) == m {
        assert slots'[j] == slots[j];
      }
      if j :| 0 <= j < |slots'| && Used(slots'[j]) && Cut(slots'[j].name) == m {
        assert slots'[j] == slots[j];
      }
    }
  }

  /** unlink's clearing of one slot. */
  lemma Cleared(slots: seq<Dirent>, k: nat)
    requires Unique(slots) && k < |slots| && Used(slots[k])
    ensures Unique(slots[k := UNUSED]) && DirMap(slots[k := UNUSED]) == DirMap(slots) - {Cut(slots[k].name)}
  {
    hide Cut, DirMap;
    var slots', n := slots[k := UNUSED], Cut(slots[k].name);
    forall m: string
      ensures m in DirMap(slots') <==> m in DirMap(slots) - {n}
      ensures m in DirMap(slots') ==> DirMap(slots')[m] == DirMap(slots)[m]
    {
      ClearedAt(slots, k, m);
    }
  }

  lemma ClearedAt(slots: seq<Dirent>, k: nat, m: string)
    requires Unique(slots) && k < |slots| && Used(slots[k]) && Unique(slots[k := UNUSED])
    ensures m in DirMap(slots[k := UNUSED]) <==> m in DirMap(slots) && m != Cut(slots[k].name)
    ensures m in DirMap(slots[k := UNUSED]) ==> DirMap(slots[k := UNUSED])[m] == DirMap(slots)[m]
  {
    hide Cut, DirMap;
    var slots' := slots[k := UNUSED];
    MapIsSearch(slots, m);
    MapIsSearch(slots', m);
    if j :| 0 <= j < |slots| && Used(slots[j]) && Cut(slots[j].name) == m && j != k {
      assert slots'[j] == slots[j];
    }
    if j :| 0 <= j < |slots'| && Used(slots'[j]) && Cut(slots'[j].name) == m {
      assert slots'[j] == slots[j];
    }
  }
}
