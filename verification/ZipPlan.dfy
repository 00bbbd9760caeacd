/** Planning the extraction of an uploaded plugin archive. Entries are checked one by
    one against tables of what came before; acceptance nevertheless does not depend on
    their order. */
module ZipPlan {
  import opened Utf8
  import opened Wrappers
  import Decimal

  const MAX_FILE_BYTES := 32 * 1024 * 1024
  const MAX_EXPANDED_BYTES := 256 * 1024 * 1024

  const MAX_PATH_BYTES := 1024

  type Path = seq<string>

  /** `str.casefold`, an arbitrary function. */
  const Fold: string -> string

  /** Whether a name is in normal form C, and whether a character is in one of the Unicode
      categories C; arbitrary functions. */
  const Normal: string -> bool
  const Control: char -> bool

  /** One entry as the archive lists it; it is irregular when its Unix type is present and
      is not the one its name calls for. */
  datatype Info = Info(original: string, irregular: bool, encrypted: bool, size: int)

  /** `path` is absent when the entry is refused by itself. */
  datatype Entry = Entry(path: Option<Path>, directory: bool, encrypted: bool, size: int)

  datatype Verdict = Accepted(plan: seq<Entry>) | Invalid | TooLarge

  // ---------------------------------------------------------------- paths and their names

  predicate ValidPart(part: string) {
    part != "" && part != "." && '/' !in part
  }

  /** The parts of a relative path. There may be none: that is the path named by a dot. */
  predicate ValidPath(p: Path) {
    forall i :: 0 <= i < |p| ==> ValidPart(p[i])
  }

  /** `as_posix`. */
  function Name(p: Path): string {
    if p == [] then "." else if |p| == 1 then p[0] else p[0] + "/" + Name(p[1..])
  }

  /** Where the first slash is, or the length. */
  function FirstSlash(name: string): (k: nat)
    ensures k <= |name| && '/' !in name[..k] && (k < |name| ==> name[k] == '/')
  {
    if name == "" || name[0] == '/' then 0 else 1 + FirstSlash(name[1..])
  }

  /** `PurePosixPath(name).parts` of a relative name: empty parts and single dots vanish. */
  function Parts(name: string): (p: Path)
    ensures ValidPath(p)
    decreases |name|
  {
    var k := FirstSlash(name);
    var rest := if k < |name| then Parts(name[k + 1..]) else [];
    if name[..k] == "" || name[..k] == "." then rest else [name[..k]] + rest
  }

  lemma {:induction false} SlashAfter(part: string, rest: string)
    requires '/' !in part
    ensures FirstSlash(part) == |part| && FirstSlash(part + "/" + rest) == |part|
  {
    if part != "" {
      assert (part + "/" + rest)[1..] == part[1..] + "/" + rest;
      SlashAfter(part[1..], rest);
    }
  }

  lemma PartsStep(part: string, rest: string)
    requires ValidPart(part)
    ensures Parts(part) == [part] && Parts(part + "/" + rest) == [part] + Parts(rest)
  {
    hide FirstSlash;
    SlashAfter(part, rest);
    var name := part + "/" + rest;
    assert part[..|part|] == part;
    assert name[..|part|] == part && name[|part| + 1..] == rest;
  }

  lemma NameStep(p: Path)
    ensures |p| == 1 ==> Name(p) == p[0]
    ensures |p| > 1 ==> Name(p) == p[0] + "/" + Name(p[1..])
  {
  }

  lemma DotHasNoParts()
    ensures Name([]) == "." && Parts(".") == []
  {
    SlashAfter(".", "");
    assert "."[..1] == ".";
  }

  /** A path is what its own name is read as. */
  lemma {:induction false} PartsOfName(p: Path)
    requires ValidPath(p)
    ensures Parts(Name(p)) == p
  {
    hide Parts, Name, ValidPart;
    NameStep(p);
    if p == [] {
      DotHasNoParts();
    } else if |p| == 1 {
      PartsStep(p[0], "");
    } else {
      PartsOfName(p[1..]);
      PartsStep(p[0], Name(p[1..]));
    }
  }

  predicate IsDirectory(original: string) {
    original != "" && original[|original| - 1] == '/'
  }

  predicate PlainName(original: string) {
    && original != "" && '\0' !in original && Normal(original)
    && '\\' !in original && original[0] != '/' && ':' !in original
    && |Encode(Decimal.Literal(original))| <= MAX_PATH_BYTES
  }

  predicate PlainPart(part: string) {
    part !in {"", ".", ".."} && forall c :: c in part ==> !Control(c)
  }

  /** `_validated_entry_path`. */
  function EntryPath(info: Info): (r: Option<Path>)
    ensures r.Some? ==> ValidPath(r.value) && ".." !in r.value
  {
    if !PlainName(info.original) then None
    else
      var n := |info.original|;
      var trimmed := if IsDirectory(info.original) then info.original[..n - 1] else info.original;
      var parts := Parts(trimmed);
      if trimmed == "" || (exists part :: part in parts && !PlainPart(part)) || info.irregular then None
      else Some(parts)
  }

  function EntryOf(info: Info): Entry {
    Entry(EntryPath(info), IsDirectory(info.original), info.encrypted, info.size)
  }

  function Planned(infos: seq<Info>): seq<Entry> {
    seq(|infos|, i requires 0 <= i < |infos| => EntryOf(infos[i]))
  }

  /** Every path without a double dot is reached under its own name, with a slash appended
      for a directory, exactly when that name and its parts pass the tests on characters. */
  lemma EntryOfName(p: Path, directory: bool, encrypted: bool, size: int)
    requires ValidPath(p)
    ensures var original := if directory then Name(p) + "/" else Name(p);
            && EntryOf(Info(original, false, encrypted, size)).directory == directory
            && (EntryPath(Info(original, false, encrypted, size)) == Some(p)
                <==> PlainName(original) && forall part :: part in p ==> PlainPart(part))
  {
    var original := if directory then Name(p) + "/" else Name(p);
    NameEnds(p);
    PartsOfName(p);
    assert directory ==> original[..|original| - 1] == Name(p);
  }

  lemma {:induction false} NameEnds(p: Path)
    requires ValidPath(p)
    ensures Name(p) != "" && Name(p)[|Name(p)| - 1] != '/'
  {
    if |p| == 1 {
      assert p[0][|p[0]| - 1] in p[0];
    } else if |p| > 1 {
      NameEnds(p[1..]);
    }
  }

  function Terminated(p: Path): string {
    if p == [] then "" else p[0] + "/" + Terminated(p[1..])
  }

  lemma {:induction false} NameIsTerminated(p: Path)
    requires p != []
    ensures Name(p) + "/" == Terminated(p)
  {
    if |p| == 1 {
      assert Terminated(p[1..]) == "";
    } else {
      NameIsTerminated(p[1..]);
    }
  }

  lemma SameHead(a: string, b: string, x: string, y: string)
    requires '/' !in a && '/' !in b && a + "/" + x <= b + "/" + y
    ensures a == b && x <= y
  {
    var s, t := a + "/" + x, b + "/" + y;
    assert s == t[..|s|];
    assert s[|a|] == '/' && t[|b|] == '/';
    assert a == s[..|a|] && b == t[..|b|];
    assert x == s[|a| + 1..] && y == t[|b| + 1..];
  }

  /** One path's name followed by a slash starts another's exactly when it is an
      ancestor of it or the same path. */
  lemma {:induction false} PrefixOfName(p: Path, q: Path)
    requires (forall i :: 0 <= i < |p| ==> '/' !in p[i]) && (forall i :: 0 <= i < |q| ==> '/' !in q[i])
    ensures Terminated(p) <= Terminated(q) <==> p <= q
    decreases |p|
  {
    if p != [] && q != [] {
      PrefixOfName(p[1..], q[1..]);
      if Terminated(p) <= Terminated(q) {
        SameHead(p[0], q[0], Terminated(p[1..]), Terminated(q[1..]));
        assert p == [p[0]] + p[1..] && q == [q[0]] + q[1..];
      }
      if p <= q {
        assert p[1..] <= q[1..] && p[0] == q[0];
        HeadKeeps(p[0], Terminated(p[1..]), Terminated(q[1..]));
      }
    }
  }

  lemma HeadKeeps(a: string, x: string, y: string)
    requires x <= y
    ensures a + "/" + x <= a + "/" + y
  {
    assert y == x + y[|x|..];
    assert a + "/" + y == (a + "/" + x) + y[|x|..];
  }

  /** Distinct valid paths have distinct names, and a name with a slash appended
      starts another exactly for a proper ancestor, unless it is the dot, which starts none. */
  lemma NamesAreFaithful(p: Path, q: Path)
    requires ValidPath(p) && ValidPath(q)
    ensures Name(p) == Name(q) <==> p == q
    ensures Name(p) + "/" <= Name(q) <==> p != [] && p < q
  {
    if p == [] || q == [] {
      DotIsAlone(p, q);
    } else {
      PartsAreFaithful(p, q);
    }
  }

  lemma DotIsAlone(p: Path, q: Path)
    requires ValidPath(p) && ValidPath(q) && (p == [] || q == [])
    ensures Name(p) == Name(q) <==> p == q
    ensures !(Name(p) + "/" <= Name(q))
  {
    PartsOfName(p);
    PartsOfName(q);
    DotFirst(Name(q));
    if q != [] { FirstPart(q); }
  }

  lemma DotFirst(name: string)
    ensures "./" <= name ==> name[..FirstSlash(name)] == "."
  {
    assert "./" <= name ==> name[0] == '.' && name[1] == '/' && name[1..][0] == '/';
  }

  lemma FirstPart(p: Path)
    requires ValidPath(p) && p != []
    ensures Name(p)[..FirstSlash(Name(p))] == p[0]
  {
    SlashAfter(p[0], if |p| > 1 then Name(p[1..]) else "");
  }

  lemma PartsAreFaithful(p: Path, q: Path)
    requires ValidPath(p) && ValidPath(q) && p != [] && q != []
    ensures Name(p) == Name(q) <==> p == q
    ensures Name(p) + "/" <= Name(q) <==> p < q
  {
    hide Terminated, Name;
    NameIsTerminated(p);
    NameIsTerminated(q);
    PrefixOfName(p, q);
    PrefixOfName(q, p);
    var s, t := Terminated(p), Terminated(q);
    assert Name(p) == s[..|s| - 1] && Name(q) == t[..|t| - 1];
    assert s <= Name(q) ==> s <= t && |s| < |t|;
    assert s <= t && |s| < |t| ==> s <= Name(q);
  }

  /** The names of a path and all its ancestors. */
  function Names(p: Path): set<string> {
    set k | 1 <= k <= |p| :: Name(p[..k])
  }

  predicate FoldsApart(names: set<string>) {
    forall x, y :: x in names && y in names && Fold(x) == Fold(y) ==> x == y
  }

  // ---------------------------------------------------------------- what is acceptable

  predicate Fine(e: Entry) {
    && e.path.Some? && ValidPath(e.path.value) && !e.encrypted
    && (!e.directory ==> 0 <= e.size <= MAX_FILE_BYTES)
  }

  function AllNames(es: set<Entry>): set<string> {
    set e, k | e in es && e.path.Some? && 1 <= k <= |e.path.value| :: Name(e.path.value[..k])
  }

  predicate Compatible(e: Entry, f: Entry) {
    e.path.Some? && f.path.Some? ==>
      && (e != f ==> e.path != f.path)
      && (!e.directory ==> !([] < e.path.value < f.path.value))
  }

  function Total(entries: seq<Entry>): int {
    if entries == [] then 0
    else Total(entries[..|entries| - 1])
         + if entries[|entries| - 1].directory then 0 else entries[|entries| - 1].size
  }

  function Members(entries: seq<Entry>): set<Entry> {
    set e | e in entries
  }

  /** No entry is repeated, each is fine by itself, no two share a path, no file other than
      the one named by a dot is an ancestor of another entry, path names and those of their ancestors stay apart
      under case folding, and the files together stay within the limit. Nothing here
      refers to the order of the entries. */
  predicate Acceptable(entries: seq<Entry>) {
    && (forall e :: e in entries ==> multiset(entries)[e] == 1 && Fine(e))
    && (forall e, f :: e in entries && f in entries ==> Compatible(e, f))
    && FoldsApart(AllNames(Members(entries)))
    && Total(entries) <= MAX_EXPANDED_BYTES
  }

  lemma TotalSplit(a: seq<Entry>, b: seq<Entry>)
    ensures Total(a + b) == Total(a) + Total(b)
  {
    if b == [] {
      assert a + b == a;
    } else {
      assert (a + b)[..|a + b| - 1] == a + b[..|b| - 1];
      TotalSplit(a, b[..|b| - 1]);
    }
  }

  /** Taking the last element of one order out of another leaves two orders of the rest. */
  lemma TakeOut<T>(a: seq<T>, b: seq<T>) returns (front: seq<T>, back: seq<T>)
    requires a != [] && multiset(a) == multiset(b)
    ensures b == front + [a[|a| - 1]] + back && multiset(a[..|a| - 1]) == multiset(front + back)
  {
    var e, rest := a[|a| - 1], a[..|a| - 1];
    assert a == rest + [e];
    assert multiset(a) == multiset(rest) + multiset{e};
    assert e in multiset(b);
    var j :| 0 <= j < |b| && b[j] == e;
    front, back := b[..j], b[j + 1..];
    assert b == front + [e] + back;
    PutBack(front, back, e);
    assert multiset(rest) + multiset{e} - multiset{e} == multiset(rest);
    assert multiset(front + back) + multiset{e} - multiset{e} == multiset(front + back);
  }

  lemma PutBack<T>(front: seq<T>, back: seq<T>, e: T)
    ensures multiset(front + [e] + back) == multiset(front + back) + multiset{e}
  {
  }

  lemma {:induction false} TotalPermutes(a: seq<Entry>, b: seq<Entry>)
    requires multiset(a) == multiset(b)
    ensures Total(a) == Total(b)
    decreases |a|
  {
    if a == [] {
      assert |multiset(b)| == 0;
    } else {
      var e, rest := a[|a| - 1], a[..|a| - 1];
      var front, back := TakeOut(a, b);
      TotalPermutes(rest, front + back);
      TotalSplit(front, back);
      TotalSplit(front + [e], back);
      TotalSplit(front, [e]);
      assert Total([e]) == Total([]) + if e.directory then 0 else e.size;
    }
  }

  lemma AcceptablePermutes(a: seq<Entry>, b: seq<Entry>)
    requires multiset(a) == multiset(b)
    ensures Acceptable(a) <==> Acceptable(b)
  {
    TotalPermutes(a, b);
    assert forall e :: e in a <==> e in multiset(a);
    assert forall e :: e in b <==> e in multiset(b);
    assert Members(a) == Members(b);
  }

  lemma PlannedSplit(a: seq<Info>, b: seq<Info>)
    ensures Planned(a + b) == Planned(a) + Planned(b)
  {
    hide EntryOf;
  }

  lemma {:induction false} PlannedPermutes(a: seq<Info>, b: seq<Info>)
    requires multiset(a) == multiset(b)
    ensures multiset(Planned(a)) == multiset(Planned(b))
    decreases |a|
  {
    hide Planned;
    if a == [] {
      assert |multiset(b)| == 0;
    } else {
      var last, rest := [a[|a| - 1]], a[..|a| - 1];
      var front, back := TakeOut(a, b);
      assert a == rest + last;
      PlannedPermutes(rest, front + back);
      PlannedSplit(rest, last);
      PlannedSplit(front, back);
      PlannedSplit(front + last, back);
      PlannedSplit(front, last);
      InsertedAnywhere(Planned(rest), Planned(front), Planned(back), Planned(last));
    }
  }

  lemma InsertedAnywhere<T>(rest: seq<T>, front: seq<T>, back: seq<T>, last: seq<T>)
    requires multiset(rest) == multiset(front + back)
    ensures multiset(rest + last) == multiset(front + last + back)
  {
  }

  /** Acceptance is the same for every order of the archive's entries. */
  lemma OrderDoesNotMatter(a: seq<Info>, b: seq<Info>)
    requires multiset(a) == multiset(b)
    ensures Acceptable(Planned(a)) <==> Acceptable(Planned(b))
  {
    hide Planned, Acceptable;
    PlannedPermutes(a, b);
    AcceptablePermutes(Planned(a), Planned(b));
  }

  lemma {:induction false} TotalGrows(entries: seq<Entry>, n: nat)
    requires n <= |entries| && forall e :: e in entries ==> Fine(e)
    ensures Total(entries[..n]) <= Total(entries)
    decreases |entries|
  {
    if n < |entries| {
      var front := entries[..|entries| - 1];
      assert front[..n] == entries[..n];
      assert entries[|entries| - 1] in entries;
      TotalGrows(front, n);
    } else {
      assert entries[..n] == entries;
    }
  }

  /** A front of an acceptable list is acceptable, so a refusal is final. */
  lemma AcceptablePrefix(entries: seq<Entry>, n: nat)
    requires Acceptable(entries) && n <= |entries|
    ensures Acceptable(entries[..n])
  {
    hide Total;
    var front := entries[..n];
    TotalGrows(entries, n);
    assert entries == front + entries[n..];
    assert multiset(entries) == multiset(front) + multiset(entries[n..]);
    forall e | e in front ensures e in entries && multiset(front)[e] == 1 {
      assert multiset(entries)[e] == 1;
      assert multiset(front)[e] >= 1;
    }
    assert AllNames(Members(front)) <= AllNames(Members(entries));
  }

  // ---------------------------------------------------------------- the tables

  /** The case-fold table holds exactly these names, each under its folded form. */
  predicate Table(casefold: map<string, string>, names: set<string>) {
    && (forall n :: n in names ==> Fold(n) in casefold && casefold[Fold(n)] == n)
    && (forall f :: f in casefold ==> casefold[f] in names && Fold(casefold[f]) == f)
  }

  /** `kinds` records, for exactly these entries, whether they are files. */
  predicate Kinds(kinds: map<string, bool>, es: set<Entry>) {
    && (forall e :: e in es && e.path.Some? ==>
          Name(e.path.value) in kinds && kinds[Name(e.path.value)] == !e.directory)
    && (forall k :: k in kinds ==> exists e :: e in es && e.path.Some? && Name(e.path.value) == k)
  }

  lemma TableFoldsApart(casefold: map<string, string>, names: set<string>)
    requires Table(casefold, names)
    ensures FoldsApart(names)
  {
  }

  function NamesUpTo(p: Path, n: nat): set<string>
    requires n <= |p|
  {
    set k | 1 <= k <= n :: Name(p[..k])
  }

  predicate UnderFile(p: Path, kinds: map<string, bool>) {
    exists k :: 1 <= k < |p| && Name(p[..k]) in kinds && kinds[Name(p[..k])]
  }

  lemma TableAdd(casefold: map<string, string>, names: set<string>, name: string)
    requires Table(casefold, names) && (Fold(name) in casefold ==> casefold[Fold(name)] == name)
    ensures Table(casefold[Fold(name) := name], names + {name})
  {
  }

  /** A name that folds onto another one in the table cannot be added, nor any more with it. */
  lemma Clash(casefold: map<string, string>, names: set<string>, name: string, all: set<string>)
    requires Table(casefold, names) && Fold(name) in casefold && casefold[Fold(name)] != name
    requires names <= all && name in all
    ensures !FoldsApart(all)
  {
    assert casefold[Fold(name)] in all;
  }

  lemma NextName(p: Path, n: nat)
    requires 1 <= n <= |p|
    ensures NamesUpTo(p, n) == NamesUpTo(p, n - 1) + {Name(p[..n])} && NamesUpTo(p, n) <= Names(p)
  {
    hide Name;
  }

  /** The inner loop over the path and its ancestors. */
  method EnterNames(p: Path, table: map<string, string>, kinds: map<string, bool>, ghost names: set<string>)
    returns (ok: bool, casefold: map<string, string>)
    requires Table(table, names)
    ensures ok <==> FoldsApart(names + Names(p)) && !UnderFile(p, kinds)
    ensures ok ==> Table(casefold, names + Names(p))
  {
    hide Name, Table, FoldsApart, NamesUpTo, Names;
    casefold := table;
    var index := 1;
    NoNames(p, names);
    while index <= |p|
      invariant 1 <= index <= |p| + 1
      invariant Table(casefold, names + NamesUpTo(p, index - 1))
      invariant forall k :: 1 <= k < index && k < |p| ==> !(Name(p[..k]) in kinds && kinds[Name(p[..k])])
    {
      var prefix := Name(p[..index]);
      var folded := Fold(prefix);
      NextName(p, index);
      ghost var before := names + NamesUpTo(p, index - 1);
      assert names + NamesUpTo(p, index) == before + {prefix};
      if folded in casefold && casefold[folded] != prefix {
        Clash(casefold, before, prefix, names + Names(p));
        return false, casefold;
      }
      TableAdd(casefold, before, prefix);
      casefold := casefold[folded := prefix];
      if index < |p| && prefix in kinds && kinds[prefix] { return false, casefold; }
      index := index + 1;
    }
    AllNamesUpTo(p);
    TableFoldsApart(casefold, names + Names(p));
    ok := true;
  }

  lemma AllNamesUpTo(p: Path)
    ensures NamesUpTo(p, |p|) == Names(p)
  {
  }

  lemma NoNames(p: Path, names: set<string>)
    ensures names + NamesUpTo(p, 0) == names
  {
  }

  // ---------------------------------------------------------------- one more entry

  predicate Listed(explicit: set<string>, es: set<Entry>) {
    && (forall e :: e in es && e.path.Some? ==> Name(e.path.value) in explicit)
    && (forall n :: n in explicit ==> exists e :: e in es && e.path.Some? && Name(e.path.value) == n)
  }

  predicate AllPathsValid(es: set<Entry>) {
    forall e :: e in es ==> e.path.Some? && ValidPath(e.path.value)
  }

  lemma NewPathIff(explicit: set<string>, es: set<Entry>, p: Path)
    requires Listed(explicit, es) && AllPathsValid(es) && ValidPath(p)
    ensures Name(p) in explicit <==> exists e :: e in es && e.path == Some(p)
  {
    hide Name;
    if Name(p) in explicit {
      var e :| e in es && e.path.Some? && Name(e.path.value) == Name(p);
      NamesAreFaithful(e.path.value, p);
    }
  }

  lemma UnderFileIff(kinds: map<string, bool>, es: set<Entry>, p: Path)
    requires Kinds(kinds, es) && AllPathsValid(es) && ValidPath(p)
    ensures UnderFile(p, kinds)
            <==> exists e :: e in es && e.path.Some? && !e.directory && [] < e.path.value < p
  {
    hide Name;
    if UnderFile(p, kinds) {
      var k :| 1 <= k < |p| && Name(p[..k]) in kinds && kinds[Name(p[..k])];
      var e :| e in es && e.path.Some? && Name(e.path.value) == Name(p[..k]);
      NamesAreFaithful(e.path.value, p[..k]);
      assert e.path.value < p;
    }
    if e :| e in es && e.path.Some? && !e.directory && [] < e.path.value < p {
      assert p[..|e.path.value|] == e.path.value;
    }
  }

  predicate OverEntry(p: Path, kinds: map<string, bool>) {
    exists k :: k in kinds && Name(p) + "/" <= k
  }

  lemma OverEntryIff(kinds: map<string, bool>, es: set<Entry>, p: Path)
    requires Kinds(kinds, es) && AllPathsValid(es) && ValidPath(p)
    ensures OverEntry(p, kinds) <==> exists e :: e in es && e.path.Some? && [] < p < e.path.value
  {
    hide Name;
    if OverEntry(p, kinds) {
      var k :| k in kinds && Name(p) + "/" <= k;
      var e :| e in es && e.path.Some? && Name(e.path.value) == k;
      NamesAreFaithful(p, e.path.value);
    }
    if e :| e in es && e.path.Some? && [] < p < e.path.value {
      NamesAreFaithful(p, e.path.value);
    }
  }

  /** Whether one more entry keeps a list acceptable, in terms of the entries before it. */
  lemma OneMoreIff(front: seq<Entry>, e: Entry)
    requires Acceptable(front) && e.path.Some? && ValidPath(e.path.value)
    ensures Acceptable(front + [e])
            <==> && Fine(e)
                 && !(exists f :: f in Members(front) && f.path == e.path)
                 && !(exists f :: f in Members(front) && f.path.Some? && !f.directory
                             && [] < f.path.value < e.path.value)
                 && (!e.directory ==>
                       !(exists f :: f in Members(front) && f.path.Some? && [] < e.path.value < f.path.value))
                 && FoldsApart(AllNames(Members(front)) + Names(e.path.value))
                 && Total(front + [e]) <= MAX_EXPANDED_BYTES
  {
    hide Total, Name, FoldsApart, ValidPath;
    var entries := front + [e];
    assert Members(entries) == Members(front) + {e};
    NamesGrow(Members(front), e);
    assert multiset(entries) == multiset(front) + multiset{e};
    assert e in entries;
    assert forall f :: f in front ==> f in entries;
    assert e in front ==> e in Members(front);
  }

  lemma NamesGrow(es: set<Entry>, e: Entry)
    requires e.path.Some?
    ensures AllNames(es + {e}) == AllNames(es) + Names(e.path.value)
  {
    hide Name;
    assert forall n :: n in Names(e.path.value) ==> n in AllNames(es + {e});
  }

  /** The tables after accepting `front`. */
  predicate Tables(explicit: set<string>, casefold: map<string, string>, kinds: map<string, bool>,
                     total: int, front: seq<Entry>) {
    && Acceptable(front) && total == Total(front) && AllPathsValid(Members(front))
    && Listed(explicit, Members(front)) && Kinds(kinds, Members(front)) && Table(casefold, AllNames(Members(front)))
  }

  /** The checks made against the tables decide whether one more entry is acceptable. */
  lemma TablesDecide(explicit: set<string>, casefold: map<string, string>, kinds: map<string, bool>, total: int,
                     front: seq<Entry>, e: Entry)
    requires Tables(explicit, casefold, kinds, total, front) && e.path.Some? && ValidPath(e.path.value)
    ensures var p := e.path.value;
            Acceptable(front + [e])
            <==> && Name(p) !in explicit
                 && FoldsApart(AllNames(Members(front)) + Names(p)) && !UnderFile(p, kinds)
                 && (e.directory || !OverEntry(p, kinds))
                 && !e.encrypted
                 && (e.directory || (0 <= e.size <= MAX_FILE_BYTES && total + e.size <= MAX_EXPANDED_BYTES))
    ensures Name(e.path.value) in kinds ==> Name(e.path.value) in explicit
  {
    KindsAreListed(explicit, kinds, Members(front), Name(e.path.value));
    hide Acceptable, Name, Total, FoldsApart, UnderFile, OverEntry, AllNames, Names, Fine, Members, Kinds,
         Listed, Table;
    var p := e.path.value;
    OneMoreIff(front, e);
    NewPathIff(explicit, Members(front), p);
    UnderFileIff(kinds, Members(front), p);
    OverEntryIff(kinds, Members(front), p);
    TotalStep(front, e);
    FineIff(e);
    WithinLimit(front);
  }

  lemma KindsAreListed(explicit: set<string>, kinds: map<string, bool>, es: set<Entry>, name: string)
    requires Listed(explicit, es) && Kinds(kinds, es)
    ensures name in kinds ==> name in explicit
  {
  }

  lemma WithinLimit(front: seq<Entry>)
    requires Acceptable(front)
    ensures Total(front) <= MAX_EXPANDED_BYTES
  {
  }

  /** The entry would have been accepted after `front` had it been empty. */
  predicate TooLargeNext(front: seq<Entry>, e: Entry) {
    Acceptable(front) && Acceptable(front + [e.(size := 0)]) && !Acceptable(front + [e])
  }

  /** The first entry that is not acceptable is so for its size alone. */
  predicate StopsForSize(entries: seq<Entry>) {
    exists n :: 0 <= n < |entries| && TooLargeNext(entries[..n], entries[n])
  }

  lemma StopsWhere(entries: seq<Entry>, i: nat)
    requires i < |entries| && Acceptable(entries[..i]) && !Acceptable(entries[..i] + [entries[i]])
    ensures !Acceptable(entries) && (StopsForSize(entries) <==> TooLargeNext(entries[..i], entries[i]))
  {
    hide Acceptable;
    assert entries[..i + 1] == entries[..i] + [entries[i]];
    forall n | 0 <= n < |entries| && n != i ensures !TooLargeNext(entries[..n], entries[n]) {
      if n < i {
        AcceptablePrefix(entries[..i], n + 1);
        assert entries[..i][..n + 1] == entries[..n] + [entries[n]];
      } else {
        LaterToo(entries, i + 1, n);
      }
    }
    LaterToo(entries, i + 1, |entries|);
    assert entries[..|entries|] == entries;
  }

  lemma LaterToo(entries: seq<Entry>, i: nat, n: nat)
    requires i <= n <= |entries| && !Acceptable(entries[..i])
    ensures !Acceptable(entries[..n])
  {
    hide Acceptable;
    if Acceptable(entries[..n]) { AcceptablePrefix(entries[..n], i); }
    assert entries[..n][..i] == entries[..i];
  }

  lemma NeverStops(entries: seq<Entry>)
    requires Acceptable(entries)
    ensures !StopsForSize(entries)
  {
    hide Acceptable;
    forall n | 0 <= n < |entries| ensures !TooLargeNext(entries[..n], entries[n]) {
      AcceptablePrefix(entries, n + 1);
      assert entries[..n + 1] == entries[..n] + [entries[n]];
    }
  }

  /** `_validated_entries`: it accepts exactly the acceptable lists, unchanged, and calls
      too large exactly those whose first unacceptable entry is so for its size alone. */
  method ValidatedEntries(infos: seq<Info>) returns (v: Verdict)
    ensures v.Accepted? <==> Acceptable(Planned(infos))
    ensures v.Accepted? ==> v.plan == Planned(infos)
    ensures v.TooLarge? <==> StopsForSize(Planned(infos))
  {
    hide Acceptable, Name, Total, FoldsApart, UnderFile, OverEntry, AllNames, Names, Fine, Tables, Table, Members,
         ValidPath, Listed, Kinds, AllPathsValid, StopsForSize, EntryOf;
    var plans: seq<Entry>, explicit: set<string> := [], {};
    var casefold: map<string, string>, kinds: map<string, bool>, total := map[], map[], 0;
    ghost var entries := Planned(infos);
    NothingYet();
    for i := 0 to |infos|
      invariant plans == entries[..i] && Tables(explicit, casefold, kinds, total, plans)
    {
      var e := EntryOf(infos[i]);
      assert entries[..i + 1] == plans + [e];
      TablesHold(explicit, casefold, kinds, total, plans);
      if !Acceptable(plans + [e]) { StopsWhere(entries, i); }
      EntryIsValid(infos[i]);
      if e.path.None? {
        NoPath(plans + [e], e);
        NoPath(plans + [e.(size := 0)], e.(size := 0));
        return Invalid;
      }
      var p := e.path.value;
      TablesDecide(explicit, casefold, kinds, total, plans, e);
      TablesDecide(explicit, casefold, kinds, total, plans, e.(size := 0));
      WithinLimit(plans);
      ghost var before, seen, was := explicit, kinds, total;
      if Name(p) in explicit { return Invalid; }
      explicit := explicit + {Name(p)};
      var ok;
      ok, casefold := EnterNames(p, casefold, kinds, AllNames(Members(plans)));
      if !ok { return Invalid; }
      // A second kind for a known name would need a known name: TablesDecide rules it out.
      if !e.directory && OverEntry(p, kinds) { return Invalid; }
      kinds := kinds[Name(p) := !e.directory];
      if e.encrypted { return Invalid; }
      if !e.directory {
        if e.size < 0 || e.size > MAX_FILE_BYTES { return TooLarge; }
        total := total + e.size;
        if total > MAX_EXPANDED_BYTES { return TooLarge; }
      }
      TablesGrow(before, casefold, seen, was, plans, e);
      plans := plans + [e];
    }
    assert entries[..|entries|] == entries;
    TablesHold(explicit, casefold, kinds, total, plans);
    NeverStops(entries);
    v := Accepted(plans);
  }

  lemma EntryIsValid(info: Info)
    ensures EntryOf(info).path.Some? ==> ValidPath(EntryOf(info).path.value)
  {
  }

  // ---------------------------------------------------------------- the dot

  /** No file is an ancestor of another entry. */
  predicate FilesAreLeaves(entries: seq<Entry>) {
    forall e, f :: e in entries && f in entries && e.path.Some? && f.path.Some? && !e.directory ==>
      !(e.path.value < f.path.value)
  }

  predicate IsDotFile(e: Entry) {
    e.path == Some([]) && !e.directory
  }

  /** In an accepted list all files are leaves exactly when a file named by a dot stands
      alone. */
  lemma FilesAreLeavesIff(entries: seq<Entry>)
    requires Acceptable(entries)
    ensures FilesAreLeaves(entries) <==> |entries| <= 1 || forall e :: e in entries ==> !IsDotFile(e)
  {
    hide FoldsApart, AllNames, Total;
    if |entries| > 1 {
      forall e | e in entries && IsDotFile(e) ensures !FilesAreLeaves(entries) {
        var f := AnotherEntry(entries, e);
        assert Compatible(e, f) && Fine(f);
      }
    }
    assert forall e, f :: e in entries && f in entries ==> Compatible(e, f);
  }

  lemma AnotherEntry(entries: seq<Entry>, e: Entry) returns (f: Entry)
    requires |entries| > 1 && e in entries && forall x :: x in entries ==> multiset(entries)[x] == 1
    ensures f in entries && f != e
  {
    var a, b := entries[0], entries[1];
    assert entries == [a, b] + entries[2..];
    assert multiset([a, b] + entries[2..]) == multiset([a, b]) + multiset(entries[2..]);
    assert a == b ==> multiset([a, b])[a] == 2;
    f := if a == e then b else a;
  }

  /** A file named by a dot is accepted next to a file that it is an ancestor of. */
  lemma DotFileIsAccepted()
    requires Normal(".") && Normal("a") && !Control('a')
    ensures var entries := Planned([Info(".", false, false, 0), Info("a", false, false, 0)]);
            Acceptable(entries) && !FilesAreLeaves(entries)
  {
    var dot, a := Entry(Some([]), false, false, 0), Entry(Some(["a"]), false, false, 0);
    assert Planned([Info(".", false, false, 0), Info("a", false, false, 0)]) == [dot, a] by { DotPlanned(); }
    hide Acceptable, Planned;
    DotFits(dot, a);
    assert [] + [dot] == [dot] && [dot] + [a] == [dot, a];
    assert [] < ["a"];
    assert dot in [dot, a] && a in [dot, a];
  }

  lemma DotPlanned()
    requires Normal(".") && Normal("a") && !Control('a')
    ensures EntryOf(Info(".", false, false, 0)) == Entry(Some([]), false, false, 0)
    ensures EntryOf(Info("a", false, false, 0)) == Entry(Some(["a"]), false, false, 0)
  {
    hide Encode, EntryPath, Decimal.Literal;
    EncodeLength(Decimal.Literal("."));
    EncodeLength(Decimal.Literal("a"));
    NameStep(["a"]);
    EntryOfName([], false, false, 0);
    EntryOfName(["a"], false, false, 0);
  }

  lemma DotFits(dot: Entry, a: Entry)
    requires dot == Entry(Some([]), false, false, 0) && a == Entry(Some(["a"]), false, false, 0)
    ensures Acceptable([] + [dot]) && Acceptable([dot] + [a])
  {
    hide Acceptable, Names, AllNames, Name, Total, FoldsApart;
    NothingYet();
    TablesHold({}, map[], map[], 0, []);
    NoNamesYet(dot);
    OneMoreIff([], dot);
    TotalStep([], dot);
    assert [] + [dot] == [dot];
    OneMoreIff([dot], a);
    TotalStep([dot], a);
    OneNameApart();
  }

  lemma NoNamesYet(dot: Entry)
    requires dot.path == Some([])
    ensures Names([]) == {} && AllNames(Members([])) == {} && AllNames(Members([dot])) == {}
    ensures FoldsApart(AllNames(Members([])) + Names([]))
    ensures Total([]) == 0
  {
  }

  lemma OneNameApart()
    ensures FoldsApart({} + Names(["a"]))
  {
    assert ["a"][..1] == ["a"];
    assert Names(["a"]) == {"a"};
  }

  lemma TablesHold(explicit: set<string>, casefold: map<string, string>, kinds: map<string, bool>,
                     total: int, front: seq<Entry>)
    requires Tables(explicit, casefold, kinds, total, front)
    ensures Acceptable(front) && Table(casefold, AllNames(Members(front))) && total == Total(front)
    ensures AllPathsValid(Members(front)) && Listed(explicit, Members(front)) && Kinds(kinds, Members(front))
  {
  }

  lemma NothingYet()
    ensures Tables({}, map[], map[], 0, [])
  {
    assert AllNames(Members([])) == {};
  }

  lemma NoPath(entries: seq<Entry>, e: Entry)
    requires e in entries && e.path.None?
    ensures !Acceptable(entries)
  {
  }

  lemma TotalStep(front: seq<Entry>, e: Entry)
    ensures Total(front + [e]) == Total(front) + if e.directory then 0 else e.size
  {
    assert (front + [e])[..|front|] == front;
  }

  lemma FineIff(e: Entry)
    requires e.path.Some? && ValidPath(e.path.value)
    ensures Fine(e) <==> !e.encrypted && (!e.directory ==> 0 <= e.size <= MAX_FILE_BYTES)
  {
  }

  lemma TablesGrow(explicit: set<string>, casefold: map<string, string>, kinds: map<string, bool>, total: int,
                   front: seq<Entry>, e: Entry)
    requires AllPathsValid(Members(front)) && Listed(explicit, Members(front)) && Kinds(kinds, Members(front))
    requires total == Total(front) && e.path.Some? && ValidPath(e.path.value) && Name(e.path.value) !in explicit
    requires Table(casefold, AllNames(Members(front)) + Names(e.path.value)) && Acceptable(front + [e])
    ensures Tables(explicit + {Name(e.path.value)}, casefold, kinds[Name(e.path.value) := !e.directory],
                   total + (if e.directory then 0 else e.size), front + [e])
  {
    hide Name, ValidPath, Acceptable, Total, AllNames, Names, Table;
    assert Members(front + [e]) == Members(front) + {e};
    NamesGrow(Members(front), e);
    TotalStep(front, e);
  }
}
