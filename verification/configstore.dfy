/**
 The `nping-agent` UCI package as the view uses it: values read with `get`,
 edits made with `set`, staged with `save`, listed by `changes` and
 committed by `apply`; and the commit guard both the registration handler
 and the save-settings handler wrap around their edits.
 */
module ConfigStore {
  import opened Text

  /** An option of the package: (section name, option name). */
  type Key = (string, string)

  /**
   The package's committed values and the edits staged on top of them.
   `changes()` is non-empty exactly when something is staged.
   */
  datatype Store = Store(committed: map<Key, string>, staged: map<Key, string>)

  /** `uci.get`: a staged edit shadows the committed value. */
  function Get(st: Store, k: Key): Option<string> {
    if k in st.staged then Some(st.staged[k])
    else if k in st.committed then Some(st.committed[k])
    else None
  }

  /** `Object.keys(await uci.changes()).length > 0`. */
  predicate HasPending(st: Store) {
    st.staged != map[]
  }

  /**
   `uci.set` followed by `uci.save`: the new value is visible at once, and it
   is staged as a change only when it differs from the current one.
   */
  function Set(st: Store, k: Key, v: string): (r: Store)
    ensures Get(r, k) == Some(v)
    ensures forall k' :: k' != k ==> Get(r, k') == Get(st, k')
    ensures r.committed == st.committed
    ensures HasPending(r) <==> HasPending(st) || Get(st, k) != Some(v)
  {
    if Get(st, k) == Some(v) then st else st.(staged := st.staged[k := v])
  }

  /** `uci.apply`: every staged edit is committed and nothing is left pending. */
  function Apply(st: Store): (r: Store)
    ensures !HasPending(r)
    ensures forall k :: Get(r, k) == Get(st, k)
  {
    Store(st.committed + st.staged, map[])
  }

  /** The value the last write to `k` in `writes` stores, if any write touches `k`. */
  function Written(writes: seq<(Key, string)>, k: Key): (r: Option<string>)
    ensures r.Some? <==> exists i :: 0 <= i < |writes| && writes[i].0 == k
  {
    if writes == [] then None
    else if writes[|writes| - 1].0 == k then Some(writes[|writes| - 1].1)
    else Written(writes[..|writes| - 1], k)
  }

  /** The value each key has after `writes` are applied to `st` in order. */
  function AfterWrites(st: Store, writes: seq<(Key, string)>, k: Key): Option<string> {
    match Written(writes, k)
    case Some(v) => Some(v)
    case None => Get(st, k)
  }

  /** Every write would store the value its key already holds. */
  predicate AlreadyHolds(st: Store, writes: seq<(Key, string)>) {
    forall i :: 0 <= i < |writes| ==> Get(st, writes[i].0) == Some(writes[i].1)
  }

  datatype CommitOutcome =
    | PendingConflict   // "Some settings have not been saved or applied"
    | NothingModified   // "No settings modified"
    | Applied

  /**
   The commit guard: refuse when changes are already pending; otherwise
   perform the writes and save; refuse to apply when nothing is pending
   afterwards; otherwise apply.
   */
  method CommitGuarded(st: Store, writes: seq<(Key, string)>) returns (outcome: CommitOutcome, st': Store)
    ensures HasPending(st) ==> outcome == PendingConflict
    ensures !HasPending(st) && AlreadyHolds(st, writes) ==> outcome == NothingModified
    ensures !HasPending(st) && !AlreadyHolds(st, writes) ==> outcome == Applied
    ensures outcome != Applied ==> st' == st
    ensures outcome == Applied ==> !HasPending(st') && forall k :: Get(st', k) == AfterWrites(st, writes, k)
  {
    if HasPending(st) {
      return PendingConflict, st;
    }
    var cur := st;
    var i := 0;
    while i < |writes|
      invariant 0 <= i <= |writes|
      invariant forall k :: Get(cur, k) == AfterWrites(st, writes[..i], k)
      invariant HasPending(cur) <==> !AlreadyHolds(st, writes[..i])
      invariant !HasPending(cur) ==> cur == st
    {
      var (k, v) := writes[i];
      assert writes[..i + 1][..i] == writes[..i];
      cur := Set(cur, k, v);
      i := i + 1;
    }
    assert writes[..i] == writes;
    if !HasPending(cur) {
      return NothingModified, st;
    }
    return Applied, Apply(cur);
  }
}
