/** Entries, sorted runs of entries, and what a read at a snapshot means. */
module Entries {
  import opened Keys

  datatype Option<T> = None | Some(value: T)

  /** The parts one after the other. */
  function Flatten<T>(parts: seq<seq<T>>): seq<T> {
    if parts == [] then [] else Flatten(parts[..|parts| - 1]) + parts[|parts| - 1]
  }

  datatype Entry = Entry(ik: IKey, value: Bytes)

  predicate Sorted(r: seq<Entry>) {
    forall i, j | 0 <= i < j < |r| :: Less(r[i].ik, r[j].ik)
  }

  ghost function Elements(r: seq<Entry>): set<Entry> {
    set e | e in r
  }

  /** Entry `e` is a write to `u` that a read at sequence `s` may see. */
  predicate Sees(e: Entry, u: UserKey, s: nat) {
    e.ik.user == u && e.ik.sn <= s
  }

  ghost predicate IsNewest(E: set<Entry>, u: UserKey, s: nat, e: Entry) {
    && e in E && Sees(e, u, s)
    && forall f | f in E && Sees(f, u, s) :: f.ik.sn <= e.ik.sn
  }

  /** The specification of every read: `o` is the newest entry of `E` for `u` at or below `s`. */
  ghost predicate Answers(E: set<Entry>, u: UserKey, s: nat, o: Option<Entry>) {
    match o
    case None => forall f | f in E :: !Sees(f, u, s)
    case Some(e) => IsNewest(E, u, s, e)
  }

  /** No two entries carry the same sequence number for the same user key. */
  ghost predicate UniqueSeq(E: set<Entry>) {
    forall e, f | e in E && f in E && e.ik.user == f.ik.user && e.ik.sn == f.ik.sn :: e == f
  }

  /** Every entry of `A` is newer than every entry of `B` for the same user key. */
  ghost predicate Above(A: set<Entry>, B: set<Entry>) {
    forall e, f | e in A && f in B && e.ik.user == f.ik.user :: e.ik.sn > f.ik.sn
  }

  /** What the caller of Get receives: deletions and absent keys are both NotFound. */
  function View(o: Option<Entry>): Option<Bytes> {
    if o.Some? && o.value.ik.kind == Value then Some(o.value.value) else None
  }

  lemma {:induction false} NewestExists(E: set<Entry>, u: UserKey, s: nat)
    ensures exists o :: Answers(E, u, s, o)
    decreases E
  {
    if e :| e in E && Sees(e, u, s) {
      NewestExists(E - {e}, u, s);
      var o :| Answers(E - {e}, u, s, o);
      if o.Some? && o.value.ik.sn >= e.ik.sn {
        assert Answers(E, u, s, o);
      } else {
        assert Answers(E, u, s, Some(e));
      }
    } else {
      assert Answers(E, u, s, None);
    }
  }

  ghost function Newest(E: set<Entry>, u: UserKey, s: nat): (o: Option<Entry>)
    ensures Answers(E, u, s, o)
  {
    NewestExists(E, u, s);
    var o :| Answers(E, u, s, o);
    o
  }

  ghost function Meaning(E: set<Entry>, u: UserKey, s: nat): Option<Bytes> {
    View(Newest(E, u, s))
  }

  /** The index of the first entry at or after `k`: where Iterator::Seek lands. */
  function LowerBound(r: seq<Entry>, k: IKey): (n: nat)
    ensures n <= |r|
    ensures forall i | 0 <= i < n :: Less(r[i].ik, k)
    ensures n < |r| ==> !Less(r[n].ik, k)
  {
    if r == [] || !Less(r[0].ik, k) then 0 else 1 + LowerBound(r[1..], k)
  }

  /** Seek in a sorted run, then check that the entry found belongs to `u`. */
  function RunGet(r: seq<Entry>, u: UserKey, s: nat): Option<Entry> {
    var n := LowerBound(r, Target(u, s));
    if n < |r| && r[n].ik.user == u then Some(r[n]) else None
  }

  lemma RunGetAnswers(r: seq<Entry>, u: UserKey, s: nat)
    requires Sorted(r)
    ensures Answers(Elements(r), u, s, RunGet(r, u, s))
  {
    var n := LowerBound(r, Target(u, s));
    forall i | 0 <= i < |r| && Sees(r[i], u, s)
      ensures n <= i && r[n].ik.user == u && r[i].ik.sn <= r[n].ik.sn
    {
      assert n <= i;
      assert n == i || Less(r[n].ik, r[i].ik);
    }
  }

  /** If the shallower part holds any visible entry of the key, its newest entry is the newest overall. */
  lemma ShallowerAnswers(A: set<Entry>, B: set<Entry>, u: UserKey, s: nat, o: Option<Entry>)
    requires Above(A, B)
    ensures o.Some? && Answers(A, u, s, o) ==> Answers(A + B, u, s, o)
    ensures Answers(A, u, s, None) && Answers(B, u, s, o) ==> Answers(A + B, u, s, o)
  {
  }
}
