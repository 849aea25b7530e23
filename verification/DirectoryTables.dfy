/** Directory tables: slot 0 describes the folder itself, slot 1 its parent, and slots 2..63
    hold the contents as a packed prefix. */
module DirectoryTables {
  import opened DirectoryLayout

  /** The first slot at or after `i` that is not in use; TABLE_SIZE when there is none. */
  function FirstUnused(t: Table, i: nat): (n: nat)
    requires i <= TABLE_SIZE
    ensures i <= n <= TABLE_SIZE
    ensures forall j :: i <= j < n ==> t[j].Used()
    ensures n < TABLE_SIZE ==> !t[n].Used()
    decreases TABLE_SIZE - i
  {
    if i == TABLE_SIZE || !t[i].Used() then i else FirstUnused(t, i + 1)
  }

  /** One past the last content slot of a packed table. */
  function Fill(t: Table): (n: nat)
    ensures 2 <= n <= TABLE_SIZE
    ensures forall j :: 2 <= j < n ==> t[j].Used()
    ensures n < TABLE_SIZE ==> !t[n].Used()
  {
    FirstUnused(t, 2)
  }

  /** The first slot at or after `i` with the given name and extension; TABLE_SIZE when there is none. */
  function Find(t: Table, i: nat, name: Name, ext: Extension): (n: nat)
    requires i <= TABLE_SIZE
    ensures i <= n <= TABLE_SIZE
    ensures forall j :: i <= j < n ==> !t[j].Named(name, ext)
    ensures n < TABLE_SIZE ==> t[n].Named(name, ext)
    decreases TABLE_SIZE - i
  {
    if i == TABLE_SIZE || t[i].Named(name, ext) then i else Find(t, i + 1, name, ext)
  }

  lemma FillIs(t: Table, n: nat)
    requires 2 <= n <= TABLE_SIZE
    requires forall j :: 2 <= j < n ==> t[j].Used()
    requires n < TABLE_SIZE ==> !t[n].Used()
    ensures Fill(t) == n
  {
  }

  lemma FindIs(t: Table, n: nat, name: Name, ext: Extension)
    requires 2 <= n < TABLE_SIZE && t[n].Named(name, ext)
    requires forall j :: 2 <= j < n ==> !t[j].Named(name, ext)
    ensures Find(t, 2, name, ext) == n
  {
  }

  ghost predicate DistinctNames(t: Table) {
    forall i, j :: 2 <= i < j < Fill(t) ==> !(t[i].name == t[j].name && t[i].ext == t[j].ext)
  }

  /** The used slots are a prefix, everything after it is zero, and no two contents share name and extension. */
  ghost predicate Packed(t: Table) {
    && t[0].Used()
    && (forall i :: Fill(t) <= i < TABLE_SIZE ==> t[i] == ZERO_ENTRY)
    && DistinctNames(t)
  }

  /** The contents of a folder, without their order. */
  ghost function Contents(t: Table): multiset<Entry> {
    multiset(t[2..Fill(t)])
  }

  /** The slot of a content with this name and extension, if any. */
  predicate Holds(t: Table, name: Name, ext: Extension) {
    Find(t, 2, name, ext) < Fill(t)
  }

  /** A scan that stops at the first unused slot finds exactly what a search of all content slots finds. */
  lemma HoldsIsExhaustive(t: Table, name: Name, ext: Extension)
    requires Packed(t)
    ensures Holds(t, name, ext) <==> exists i :: 2 <= i < TABLE_SIZE && t[i].Used() && t[i].Named(name, ext)
  {
    var n := Find(t, 2, name, ext);
    if exists i :: 2 <= i < TABLE_SIZE && t[i].Used() && t[i].Named(name, ext) {
      var i :| 2 <= i < TABLE_SIZE && t[i].Used() && t[i].Named(name, ext);
      assert i < Fill(t);
      assert n <= i;
    }
  }

  /** Slot `i` is the first content slot with this name and extension, and a scan gets to it: every
      slot up to it is in use. */
  ghost predicate Lists(t: Table, i: int, name: Name, ext: Extension) {
    && 2 <= i < TABLE_SIZE && t[i].name == name && t[i].ext == ext
    && (forall j :: 2 <= j <= i ==> t[j].userAttribute == 0xAA)
    && (forall j :: 2 <= j < i ==> !(t[j].name == name && t[j].ext == ext))
  }

  /** Slot `i` is the first content slot that is not in use. */
  ghost predicate FirstFree(t: Table, i: int) {
    2 <= i < TABLE_SIZE && t[i].userAttribute != 0xAA && forall j :: 2 <= j < i ==> t[j].userAttribute == 0xAA
  }

  ghost predicate NoneFree(t: Table) {
    forall j :: 2 <= j < TABLE_SIZE ==> t[j].userAttribute == 0xAA
  }

  /** The scans, whatever the table holds: which slot they list and which they find free. */
  lemma ScansAre(t: Table, name: Name, ext: Extension)
    ensures Holds(t, name, ext) <==> exists i :: Lists(t, i, name, ext)
    ensures forall i {:trigger Lists(t, i, name, ext)} :: Lists(t, i, name, ext) <==> Holds(t, name, ext) && i == Find(t, 2, name, ext)
    ensures NoneFree(t) <==> Fill(t) == TABLE_SIZE
    ensures forall i {:trigger FirstFree(t, i)} :: FirstFree(t, i) <==> i == Fill(t) < TABLE_SIZE
  {
    forall i | Lists(t, i, name, ext) ensures Holds(t, name, ext) && i == Find(t, 2, name, ext) {
      FindIs(t, i, name, ext);
      assert Fill(t) > i;
    }
    if Holds(t, name, ext) {
      assert Lists(t, Find(t, 2, name, ext), name, ext);
    }
  }

  /** Slot `i` is the first at or after `from`, in use or not, with this name and extension. */
  ghost predicate FirstNamed(t: Table, from: nat, i: int, name: Name, ext: Extension) {
    && from <= i < TABLE_SIZE && t[i].name == name && t[i].ext == ext
    && forall j :: from <= j < i ==> !(t[j].name == name && t[j].ext == ext)
  }

  ghost predicate NoneNamed(t: Table, from: nat, name: Name, ext: Extension) {
    forall j :: from <= j < TABLE_SIZE ==> !(t[j].name == name && t[j].ext == ext)
  }

  lemma SearchIs(t: Table, from: nat, name: Name, ext: Extension)
    requires from <= TABLE_SIZE
    ensures NoneNamed(t, from, name, ext) <==> Find(t, from, name, ext) == TABLE_SIZE
    ensures forall i {:trigger FirstNamed(t, from, i, name, ext)} ::
              FirstNamed(t, from, i, name, ext) <==> i == Find(t, from, name, ext) < TABLE_SIZE
  {
    if Find(t, from, name, ext) < TABLE_SIZE {
      assert t[Find(t, from, name, ext)].Named(name, ext);
    }
  }

  // ---- Adding and removing a content ----

  function Append(t: Table, e: Entry): Table
    requires Fill(t) < TABLE_SIZE
  {
    t[Fill(t) := e]
  }

  /** The last slot in use takes the place of the removed one. */
  function Remove(t: Table, i: nat): Table
    requires i < TABLE_SIZE
  {
    t[i := t[Fill(t) - 1]][Fill(t) - 1 := ZERO_ENTRY]
  }

  lemma AppendPacked(t: Table, e: Entry)
    requires Packed(t) && Fill(t) < TABLE_SIZE
    requires e.Used() && !Holds(t, e.name, e.ext)
    ensures Packed(Append(t, e)) && Fill(Append(t, e)) == Fill(t) + 1
    ensures Append(t, e)[Fill(t)] == e && forall j :: 0 <= j < TABLE_SIZE && j != Fill(t) ==> Append(t, e)[j] == t[j]
  {
    FillIs(Append(t, e), Fill(t) + 1);
    forall j | 2 <= j < Fill(t) ensures !t[j].Named(e.name, e.ext) {
      HoldsIsExhaustive(t, e.name, e.ext);
    }
  }

  lemma AppendAddsOne(t: Table, e: Entry)
    requires Packed(t) && Fill(t) < TABLE_SIZE
    requires e.Used() && !Holds(t, e.name, e.ext)
    ensures Contents(Append(t, e)) == Contents(t) + multiset{e}
  {
    AppendPacked(t, e);
    AppendSlice(t, e, Fill(t));
  }

  lemma AppendSlice(t: Table, e: Entry, n: nat)
    requires 2 <= n < TABLE_SIZE
    ensures t[n := e][2..n + 1] == t[2..n] + [e]
  {
  }

  lemma RemovePacked(t: Table, i: nat)
    requires Packed(t) && 2 <= i < Fill(t)
    ensures Packed(Remove(t, i)) && Fill(Remove(t, i)) == Fill(t) - 1
  {
    FillIs(Remove(t, i), Fill(t) - 1);
  }

  lemma SwapLast<X>(s: seq<X>, i: nat)
    requires i < |s|
    ensures multiset(s[i := s[|s| - 1]][..|s| - 1]) == multiset(s) - multiset{s[i]}
  {
    var n := |s| - 1;
    assert s == s[..n] + [s[n]];
    if i < n {
      assert s[..n] == s[..i] + [s[i]] + s[i + 1..n];
      assert s[i := s[n]][..n] == s[..i] + [s[n]] + s[i + 1..n];
    }
  }

  /** Swap-with-last removal deletes exactly one entry. */
  lemma RemoveDeletesOne(t: Table, i: nat)
    requires Packed(t) && 2 <= i < Fill(t)
    ensures Contents(Remove(t, i)) == Contents(t) - multiset{t[i]}
  {
    RemovePacked(t, i);
    RemoveCount(t, i, Fill(t));
  }

  lemma RemoveCount(t: Table, i: nat, n: nat)
    requires 2 <= i < n <= TABLE_SIZE
    ensures multiset(t[i := t[n - 1]][n - 1 := ZERO_ENTRY][2..n - 1]) == multiset(t[2..n]) - multiset{t[i]}
  {
    var s := t[2..n];
    assert s[i - 2] == t[i];
    SwapLast(s, i - 2);
    RemoveSlice(t, i, n);
  }

  /** Removal moves no entry but the last one, into the freed slot, and zeroes the last one's. */
  lemma RemoveMovesLast(t: Table, i: nat)
    requires 2 <= i < Fill(t)
    ensures Remove(t, i)[Fill(t) - 1] == ZERO_ENTRY
    ensures i < Fill(t) - 1 ==> Remove(t, i)[i] == t[Fill(t) - 1]
    ensures forall j :: 0 <= j < TABLE_SIZE && j != i && j != Fill(t) - 1 ==> Remove(t, i)[j] == t[j]
  {
  }

  lemma RemoveSlice(t: Table, i: nat, n: nat)
    requires 2 <= i < n <= TABLE_SIZE
    ensures var s := t[2..n];
      t[i := t[n - 1]][n - 1 := ZERO_ENTRY][2..n - 1] == s[i - 2 := s[|s| - 1]][..|s| - 1]
  {
    var s, u := t[2..n], t[i := t[n - 1]][n - 1 := ZERO_ENTRY];
    if i < n - 1 {
      assert u[2..n - 1] == t[2..i] + [t[n - 1]] + t[i + 1..n - 1];
      assert s[i - 2 := s[|s| - 1]][..|s| - 1] == t[2..i] + [t[n - 1]] + t[i + 1..n - 1];
    } else {
      assert u[2..n - 1] == t[2..n - 1] == s[..|s| - 1];
    }
  }

  lemma FindUnique(t: Table, i: nat)
    requires Packed(t) && 2 <= i < Fill(t)
    ensures Find(t, 2, t[i].name, t[i].ext) == i
  {
    var n := Find(t, 2, t[i].name, t[i].ext);
    assert n <= i;
  }

  /** Removing the entry just appended gives back the table, byte for byte. */
  lemma RemoveAppend(t: Table, e: Entry)
    requires Packed(t) && Fill(t) < TABLE_SIZE
    requires e.Used() && !Holds(t, e.name, e.ext)
    ensures Find(Append(t, e), 2, e.name, e.ext) == Fill(t)
    ensures Fill(Append(t, e)) == Fill(t) + 1
    ensures Remove(Append(t, e), Fill(t)) == t
  {
    AppendPacked(t, e);
    FindUnique(Append(t, e), Fill(t));
  }
}
