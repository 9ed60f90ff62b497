/** Versions: the files of the seven levels, and point lookup through them (version_set.cc). */
module Versions {
  import opened Keys
  import opened Entries

  /** A table file. `run` is its contents, `size` its length in bytes. */
  datatype File = File(number: nat, size: nat, smallest: IKey, largest: IKey, run: seq<Entry>)

  ghost predicate FileOk(f: File) {
    && |f.run| > 0 && Sorted(f.run)
    && f.smallest == f.run[0].ik && f.largest == f.run[|f.run| - 1].ik
  }

  ghost predicate FilesOk(files: seq<File>) {
    forall f | f in files :: FileOk(f)
  }

  ghost predicate SortedDisjoint(files: seq<File>) {
    forall i, j | 0 <= i < j < |files| :: Less(files[i].largest, files[j].smallest)
  }

  ghost function FileEntries(files: seq<File>): set<Entry> {
    set f, e | f in files && e in f.run :: e
  }

  lemma FileBounds(f: File, e: Entry)
    requires FileOk(f) && e in f.run
    ensures AtMost(f.smallest, e.ik) && AtMost(e.ik, f.largest)
    ensures f.smallest.user <= e.ik.user <= f.largest.user
  {
    var i :| 0 <= i < |f.run| && f.run[i] == e;
    assert i == 0 || Less(f.run[0].ik, f.run[i].ik);
    assert i == |f.run| - 1 || Less(f.run[i].ik, f.run[|f.run| - 1].ik);
  }

  lemma FilesSpan(files: seq<File>)
    requires FilesOk(files)
    ensures forall f | f in files :: AtMost(f.smallest, f.largest)
  {
    forall f | f in files
      ensures AtMost(f.smallest, f.largest)
    {
      FileBounds(f, f.run[0]);
    }
  }

  ghost predicate DistinctNumbers(files: seq<File>) {
    forall i, j | 0 <= i < j < |files| :: files[i].number != files[j].number
  }

  /** Level 0 is searched by file number: a higher number must hold newer data for every shared key. */
  ghost predicate ZeroOrdered(files: seq<File>) {
    && DistinctNumbers(files)
    && forall f, g | f in files && g in files && f.number > g.number :: Above(Elements(f.run), Elements(g.run))
  }

  datatype Version = Version(files: seq<seq<File>>)

  ghost function Shallow(v: Version, n: nat): set<Entry>
    requires n <= |v.files|
  {
    if n == 0 then {} else Shallow(v, n - 1) + FileEntries(v.files[n - 1])
  }

  ghost function All(v: Version): set<Entry> {
    Shallow(v, |v.files|)
  }

  lemma {:induction false} ShallowMember(v: Version, n: nat, e: Entry)
    requires n <= |v.files|
    ensures e in Shallow(v, n) <==> exists i :: 0 <= i < n && e in FileEntries(v.files[i])
  {
    if n > 0 { ShallowMember(v, n - 1, e); }
  }

  /** The version invariant. Levels 1 and up are sorted and disjoint in internal-key order, and for each
      user key every entry of a shallower level is newer than every entry of a deeper one. */
  ghost predicate VersionOk(v: Version) {
    && |v.files| == NUM_LEVELS
    && (forall i | 0 <= i < NUM_LEVELS :: FilesOk(v.files[i]))
    && (forall i | 1 <= i < NUM_LEVELS :: SortedDisjoint(v.files[i]))
    && ZeroOrdered(v.files[0])
    && LevelsAbove(v)
  }

  ghost predicate LevelsAbove(v: Version) {
    forall i, j | 0 <= i < j < |v.files| :: Above(FileEntries(v.files[i]), FileEntries(v.files[j]))
  }

  lemma ShallowAbove(v: Version, n: nat)
    requires VersionOk(v) && n < NUM_LEVELS
    ensures Above(Shallow(v, n), FileEntries(v.files[n]))
  {
    hide FileEntries, FilesOk, SortedDisjoint, ZeroOrdered, Shallow;
    forall e, f | e in Shallow(v, n) && f in FileEntries(v.files[n]) && e.ik.user == f.ik.user
      ensures e.ik.sn > f.ik.sn
    {
      ShallowMember(v, n, e);
      var i :| 0 <= i < n && e in FileEntries(v.files[i]);
      assert Above(FileEntries(v.files[i]), FileEntries(v.files[n]));
    }
  }

  /** An entry found in the first n levels answers the read on the whole version. */
  lemma {:induction false} FoundIsFinal(v: Version, n: nat, u: UserKey, s: nat, o: Option<Entry>)
    requires VersionOk(v) && n <= NUM_LEVELS && o.Some?
    requires Answers(Shallow(v, n), u, s, o)
    ensures Answers(All(v), u, s, o)
    decreases NUM_LEVELS - n
  {
    if n < NUM_LEVELS {
      ShallowAbove(v, n);
      ShallowerAnswers(Shallow(v, n), FileEntries(v.files[n]), u, s, o);
      FoundIsFinal(v, n + 1, u, s, o);
    }
  }

  /** The files whose largest key lies before `key` come first. */
  ghost predicate SplitsAt(files: seq<File>, key: IKey) {
    forall i, j | 0 <= i < j < |files| && Less(files[j].largest, key) :: Less(files[i].largest, key)
  }

  /** The first file whose largest key is at or after `key`, by binary search. */
  method FindFile(files: seq<File>, key: IKey) returns (right: nat)
    requires SplitsAt(files, key)
    ensures right <= |files|
    ensures forall i | 0 <= i < right :: Less(files[i].largest, key)
    ensures forall i | right <= i < |files| :: !Less(files[i].largest, key)
  {
    var left := 0;
    right := |files|;
    while left < right
      invariant left <= right <= |files|
      invariant forall i | 0 <= i < left :: Less(files[i].largest, key)
      invariant forall i | right <= i < |files| :: !Less(files[i].largest, key)
    {
      var mid := (left + right) / 2;
      if Less(files[mid].largest, key) {
        left := mid + 1;
      } else {
        right := mid;
      }
    }
  }

  lemma SortedSplits(files: seq<File>, key: IKey)
    requires SortedDisjoint(files) && FilesOk(files)
    ensures SplitsAt(files, key)
  {
    FilesSpan(files);
    assert forall i | 0 <= i < |files| :: files[i] in files;
  }

  /** An entry a read may see lies in the candidate file, or after every key of it. */
  lemma SeenFromCandidate(files: seq<File>, u: UserKey, s: nat, index: nat, e: Entry)
    requires SortedDisjoint(files) && FilesOk(files) && index <= |files|
    requires forall i | 0 <= i < index :: Less(files[i].largest, Target(u, s))
    requires e in FileEntries(files) && Sees(e, u, s)
    ensures index < |files| && (e in files[index].run || Less(files[index].largest, e.ik))
  {
    var f :| f in files && e in f.run;
    var i :| 0 <= i < |files| && files[i] == f;
    FileBounds(f, e);
    if i > index {
      assert Less(files[index].largest, files[i].smallest);
    }
  }

  /** The candidate file of a sorted level answers for the whole level. */
  lemma LevelAnswers(files: seq<File>, u: UserKey, s: nat, index: nat)
    requires SortedDisjoint(files) && FilesOk(files) && index <= |files|
    requires forall i | 0 <= i < index :: Less(files[i].largest, Target(u, s))
    requires forall i | index <= i < |files| :: !Less(files[i].largest, Target(u, s))
    ensures index == |files| || files[index].smallest.user > u ==> Answers(FileEntries(files), u, s, None)
    ensures index < |files| ==> Answers(FileEntries(files), u, s, RunGet(files[index].run, u, s))
  {
    forall e | e in FileEntries(files) && Sees(e, u, s)
      ensures
        && index < |files|
        && (e in files[index].run || Less(files[index].largest, e.ik))
    {
      SeenFromCandidate(files, u, s, index, e);
    }
    if index < |files| {
      assert files[index] in files;
      CandidateAnswers(FileEntries(files), files[index], u, s);
    }
  }

  lemma CandidateAnswers(E: set<Entry>, f: File, u: UserKey, s: nat)
    requires FileOk(f) && !Less(f.largest, Target(u, s)) && Elements(f.run) <= E
    requires forall e | e in E && Sees(e, u, s) :: e in f.run || Less(f.largest, e.ik)
    ensures f.smallest.user > u ==> Answers(E, u, s, None)
    ensures Answers(E, u, s, RunGet(f.run, u, s))
  {
    RunGetAnswers(f.run, u, s);
    forall e | e in f.run
      ensures AtMost(e.ik, f.largest) && e.ik.user >= f.smallest.user
    {
      FileBounds(f, e);
    }
    var last := f.run[|f.run| - 1];
    assert last in f.run;
    var n := LowerBound(f.run, Target(u, s));
    assert n < |f.run| && f.run[n] in Elements(f.run);
  }

  ghost predicate NewestFirst(files: seq<File>) {
    forall i, j | 0 <= i < j < |files| :: files[i].number > files[j].number
  }

  method InsertByNumber(r: seq<File>, f: File) returns (r': seq<File>)
    requires NewestFirst(r) && forall g | g in r :: g.number != f.number
    ensures NewestFirst(r') && forall g :: g in r' <==> g in r || g == f
  {
    var p := 0;
    while p < |r| && r[p].number > f.number
      invariant p <= |r|
      invariant forall i | 0 <= i < p :: r[i].number > f.number
    {
      p := p + 1;
    }
    assert p < |r| ==> r[p] in r;
    assert r == r[..p] + r[p..];
    r' := r[..p] + [f] + r[p..];
    Between(r[..p], f, r[p..]);
  }

  lemma Between(a: seq<File>, f: File, b: seq<File>)
    requires NewestFirst(a + b) && (forall i | 0 <= i < |a| :: a[i].number > f.number)
    requires b != [] ==> b[0].number < f.number
    ensures NewestFirst(a + [f] + b)
  {
    var r, r' := a + b, a + [f] + b;
    forall i, j | 0 <= i < j < |r'|
      ensures r'[i].number > r'[j].number
    {
      var n := |a|;
      assert r'[n] == f;
      if i < n {
        assert r'[i] == a[i] == r[i];
        assert j < n ==> r'[j] == r[j];
        assert j > n ==> r'[j] == b[j - n - 1] == r[j - 1];
      } else {
        assert r'[j] == b[j - n - 1] == r[j - 1] && r[n] == b[0];
        assert i > n ==> r'[i] == b[i - n - 1] == r[i - 1];
      }
    }
  }

  /** Order files by decreasing number, as NewestFirst does. */
  method SortNewestFirst(files: seq<File>) returns (r: seq<File>)
    requires DistinctNumbers(files)
    ensures NewestFirst(r)
    ensures forall f :: f in r <==> f in files
  {
    r := [];
    for k := 0 to |files|
      invariant NewestFirst(r)
      invariant forall f :: f in r <==> f in files[..k]
    {
      r := InsertByNumber(r, files[k]);
      assert files[..k + 1] == files[..k] + [files[k]];
    }
    assert files[..|files|] == files;
  }

  /** Files of level 0 whose user-key range contains `u`. */
  method Candidates(files: seq<File>, u: UserKey) returns (tmp: seq<File>)
    requires DistinctNumbers(files)
    ensures forall f :: f in tmp <==> f in files && f.smallest.user <= u <= f.largest.user
    ensures DistinctNumbers(tmp)
  {
    tmp := [];
    for i := 0 to |files|
      invariant forall f :: f in tmp <==> f in files[..i] && f.smallest.user <= u <= f.largest.user
      invariant DistinctNumbers(tmp)
    {
      if u >= files[i].smallest.user && u <= files[i].largest.user {
        assert forall a | 0 <= a < |tmp| :: tmp[a] in files[..i];
        tmp := tmp + [files[i]];
      }
      assert files[..i + 1] == files[..i] + [files[i]];
    }
    assert files[..|files|] == files;
  }

  /** Version::Get: newest-first through level 0, then one binary-searched file per deeper level. */
  method Get(v: Version, u: UserKey, s: nat) returns (o: Option<Entry>)
    requires VersionOk(v)
    ensures Answers(All(v), u, s, o)
  {
    hide Answers, FileEntries, Shallow, FilesOk, SortedDisjoint, ZeroOrdered, LevelsAbove, Above;
    o := GetLevelZero(v.files[0], u, s);
    ShallowGrows(v, 0);
    if o.Some? {
      FoundIsFinal(v, 1, u, s, o);
      return;
    }
    for level := 1 to NUM_LEVELS
      invariant Answers(Shallow(v, level), u, s, None)
    {
      SortedSplits(v.files[level], Target(u, s));
      o := GetSortedLevel(v.files[level], u, s);
      ShallowAbove(v, level);
      ShallowGrows(v, level);
      ShallowerAnswers(Shallow(v, level), FileEntries(v.files[level]), u, s, o);
      if o.Some? {
        FoundIsFinal(v, level + 1, u, s, o);
        return;
      }
    }
    o := None;
  }

  lemma ShallowGrows(v: Version, n: nat)
    requires n < |v.files|
    ensures Shallow(v, n + 1) == Shallow(v, n) + FileEntries(v.files[n])
    ensures n == 0 ==> Shallow(v, 1) == FileEntries(v.files[0])
    ensures All(v) == Shallow(v, |v.files|)
  {
  }

  /** The search of a deeper level reads one file, which answers for the level when its files are apart. */
  method GetSortedLevel(files: seq<File>, u: UserKey, s: nat) returns (o: Option<Entry>)
    requires SplitsAt(files, Target(u, s))
    ensures FilesOk(files) && SortedDisjoint(files) ==> Answers(FileEntries(files), u, s, o)
    ensures o.Some? ==> exists i ::
      && 0 <= i < |files| && o == RunGet(files[i].run, u, s)
      && forall j | 0 <= j < i :: Less(files[j].largest, Target(u, s))
  {
    var index := FindFile(files, Target(u, s));
    if FilesOk(files) && SortedDisjoint(files) {
      LevelAnswers(files, u, s, index);
    }
    o := None;
    if index < |files| && !(u < files[index].smallest.user) {
      o := RunGet(files[index].run, u, s);
    }
  }

  method GetLevelZero(files: seq<File>, u: UserKey, s: nat) returns (o: Option<Entry>)
    requires FilesOk(files) && ZeroOrdered(files)
    ensures Answers(FileEntries(files), u, s, o)
  {
    hide Less, Sorted, DistinctNumbers, RunGet;
    var tmp := Candidates(files, u);
    tmp := SortNewestFirst(tmp);
    forall f, e | f in files && e in f.run && e.ik.user == u
      ensures f in tmp
    {
      FileBounds(f, e);
    }
    for i := 0 to |tmp|
      invariant forall j, e | 0 <= j < i && e in tmp[j].run :: !Sees(e, u, s)
    {
      var f := tmp[i];
      assert f in files;
      o := RunGet(f.run, u, s);
      RunGetAnswers(f.run, u, s);
      if o.Some? {
        forall g, e | g in files && e in g.run && Sees(e, u, s)
          ensures e.ik.sn <= o.value.ik.sn
        {
          var j :| 0 <= j < |tmp| && tmp[j] == g;
          assert e in Elements(g.run) && o.value in Elements(f.run);
        }
        assert o.value in FileEntries(files);
        return;
      }
    }
    o := None;
  }
}
