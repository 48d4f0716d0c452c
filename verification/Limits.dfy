/**
 The limit timeline (plan_limits.cpp): for every instant, how many CPUs the jobs
 of each account and walltime class hold. One entry is in force from its own
 timestamp to the timestamp of the next one.
 */
module Limits {
  import opened PlanLists
  import opened PlanJobs

  const NUM_LIMITS: nat := 8

  /** One account of a limit entry, with its CPUs per walltime class (plan_limit_account). */
  datatype Account = Account(id: int, numCpus: seq<int>)

  datatype Limit = Limit(timestamp: int, accounts: seq<Account>)

  /** The thresholds of a cluster, and what they allow to one account and to all together. */
  datatype Config = Config(thresholds: seq<int>, user: seq<int>, total: seq<int>) {
    ghost predicate Valid() {
      |thresholds| == |user| == |total| <= NUM_LIMITS
    }
  }

  /** Whose CPUs are counted. */
  datatype Who = Everyone | Only(id: int)

  predicate Matches(who: Who, id: int) {
    who == Everyone || who == Only(id)
  }

  function ClassCpus(a: Account, c: nat): int {
    if c < |a.numCpus| then a.numCpus[c] else 0
  }

  function CpusIn(accounts: seq<Account>, who: Who, c: nat): int {
    if accounts == [] then 0
    else
      var a := accounts[|accounts| - 1];
      CpusIn(accounts[..|accounts| - 1], who, c) + if Matches(who, a.id) then ClassCpus(a, c) else 0
  }

  /** The walltime class: the first threshold that the walltime does not pass. */
  method WalltimeSuitsToLimit(thresholds: seq<int>, walltime: int) returns (found: nat)
    ensures found == WalltimeClass(thresholds, walltime)
  {
    found := 0;
    while found < |thresholds|
      invariant found <= |thresholds|
      invariant WalltimeClass(thresholds, walltime) == found + WalltimeClass(thresholds[found..], walltime)
    {
      if walltime <= thresholds[found] {
        break;
      }
      found := found + 1;
    }
  }

  function WalltimeClass(thresholds: seq<int>, walltime: int): (c: nat)
    ensures c <= |thresholds|
    ensures forall i :: 0 <= i < c ==> thresholds[i] < walltime
    ensures c < |thresholds| ==> walltime <= thresholds[c]
  {
    if thresholds == [] || walltime <= thresholds[0] then 0
    else 1 + WalltimeClass(thresholds[1..], walltime)
  }

  // ----- the accounts of one entry

  /** Binary search between a and b, both included. */
  function BinSearchAccount(accounts: seq<Account>, a: int, b: int, id: int): (r: int)
    requires 0 <= a && b < |accounts|
    ensures r == -1 || (a <= r <= b && accounts[r].id == id)
    decreases b - a + 1
  {
    if b < a then -1
    else
      var middle := (a + b) / 2;
      if accounts[middle].id == id then middle
      else if a == b then -1
      else if id > accounts[middle].id then BinSearchAccount(accounts, middle + 1, b, id)
      else BinSearchAccount(accounts, a, middle - 1, id)
  }

  function LimitFindAccount(accounts: seq<Account>, id: int): (r: int)
    ensures r == -1 || (0 <= r < |accounts| && accounts[r].id == id)
  {
    if accounts == [] then -1
    else if id < accounts[0].id || accounts[|accounts| - 1].id < id then -1
    else BinSearchAccount(accounts, 0, |accounts| - 1, id)
  }

  ghost predicate SortedIds(accounts: seq<Account>) {
    forall i, j :: 0 <= i < j < |accounts| ==> accounts[i].id < accounts[j].id
  }

  lemma {:induction false} BinSearchComplete(accounts: seq<Account>, a: int, b: int, id: int, k: int)
    requires SortedIds(accounts) && 0 <= a <= k <= b < |accounts| && accounts[k].id == id
    ensures BinSearchAccount(accounts, a, b, id) == k
    decreases b - a
  {
    var middle := (a + b) / 2;
    if middle < k {
      BinSearchComplete(accounts, middle + 1, b, id, k);
    } else if k < middle {
      BinSearchComplete(accounts, a, middle - 1, id, k);
    }
  }

  /** On accounts in strictly ascending order the search finds exactly the accounts that are there. */
  lemma {:induction false} FindComplete(accounts: seq<Account>, id: int)
    requires SortedIds(accounts)
    ensures LimitFindAccount(accounts, id) != -1 <==> exists k :: 0 <= k < |accounts| && accounts[k].id == id
  {
    if k :| 0 <= k < |accounts| && accounts[k].id == id {
      BinSearchComplete(accounts, 0, |accounts| - 1, id, k);
    }
  }

  /**
   The shifting loop of the insertion stops at index 1: the account at index 0
   is never compared with the new one.
   */
  function InsertPosition(accounts: seq<Account>, id: int, pos: nat): (p: nat)
    requires pos <= |accounts|
    ensures p <= pos && (pos > 0 ==> p > 0)
    ensures forall i :: p <= i < pos ==> accounts[i].id > id
    ensures p > 1 ==> accounts[p - 1].id <= id
  {
    if pos > 1 && accounts[pos - 1].id > id then InsertPosition(accounts, id, pos - 1) else pos
  }

  function NewAccount(id: int): Account {
    Account(id, seq(NUM_LIMITS, _ => 0))
  }

  /** The accounts from a position on have moved up by one place. */
  ghost predicate Shifting(was: seq<Account>, accounts: seq<Account>, pos: nat) {
    && pos <= |was| && |accounts| == |was| + 1
    && (forall i :: 0 <= i < pos ==> accounts[i] == was[i])
    && (forall i :: pos < i < |accounts| ==> accounts[i] == was[i - 1])
  }

  lemma {:induction false} ShiftedIsInserted(was: seq<Account>, accounts: seq<Account>, pos: nat, account: Account)
    requires Shifting(was, accounts, pos) && accounts[pos] == account
    ensures accounts == Insert(was, pos, account)
  {
  }

  /** Adds an account without CPUs; returns its position. */
  method LimitAddAccount(limit: Item<Limit>, id: int) returns (pos: nat)
    modifies limit`value
    ensures pos == InsertPosition(old(limit.value.accounts), id, |old(limit.value.accounts)|)
    ensures limit.value == old(limit.value).(accounts := Insert(old(limit.value.accounts), pos, NewAccount(id)))
  {
    var was := limit.value.accounts;
    pos := |was|;
    var accounts := was + [NewAccount(id)];
    while pos > 1 && accounts[pos - 1].id > id
      invariant Shifting(was, accounts, pos)
      invariant limit.value == old(limit.value)
      invariant InsertPosition(was, id, |was|) == InsertPosition(was, id, pos)
    {
      accounts := accounts[pos := accounts[pos - 1]];
      pos := pos - 1;
    }
    accounts := accounts[pos := NewAccount(id)];
    ShiftedIsInserted(was, accounts, pos, NewAccount(id));
    limit.value := limit.value.(accounts := accounts);
  }

  /**
   Inserting an account keeps the accounts in strictly ascending order exactly
   when the new id is above the one at index 0.
   */
  lemma {:induction false} AddKeepsOrderIff(accounts: seq<Account>, id: int)
    requires SortedIds(accounts)
    requires forall k :: 0 <= k < |accounts| ==> accounts[k].id != id
    ensures SortedIds(Insert(accounts, InsertPosition(accounts, id, |accounts|), NewAccount(id)))
            <==> accounts == [] || accounts[0].id < id
  {
    var p := InsertPosition(accounts, id, |accounts|);
    var after := Insert(accounts, p, NewAccount(id));
    if accounts != [] {
      assert after[0] == accounts[0] && after[p].id == id && p > 0;
      if accounts[0].id < id {
        assert accounts[p - 1].id < id;
        InsertSorted(accounts, p, id);
      }
    }
  }

  lemma {:induction false} InsertSorted(accounts: seq<Account>, p: nat, id: int)
    requires SortedIds(accounts) && p <= |accounts|
    requires p > 0 ==> accounts[p - 1].id < id
    requires p < |accounts| ==> id < accounts[p].id
    ensures SortedIds(Insert(accounts, p, NewAccount(id)))
  {
    var after := Insert(accounts, p, NewAccount(id));
    forall i, j | 0 <= i < j < |after|
      ensures after[i].id < after[j].id
    {
      assert after[i].id == if i < p then accounts[i].id else if i == p then id else accounts[i - 1].id;
      assert after[j].id == if j < p then accounts[j].id else if j == p then id else accounts[j - 1].id;
    }
  }

  /** An account below the first one is not found, neither before nor after it is added; every job of its owner adds it again. */
  lemma {:induction false} AccountBelowFirstIsLost(accounts: seq<Account>, id: int)
    requires accounts != [] && id < accounts[0].id
    ensures LimitFindAccount(accounts, id) == -1
    ensures var after := Insert(accounts, InsertPosition(accounts, id, |accounts|), NewAccount(id));
            after[0] == accounts[0] && NewAccount(id) in after && LimitFindAccount(after, id) == -1 && !SortedIds(after)
  {
    var p := InsertPosition(accounts, id, |accounts|);
    var after := Insert(accounts, p, NewAccount(id));
    assert p > 0 && after[0] == accounts[0] && after[p] == NewAccount(id);
  }

  /** The first account may get lost, too: neither 3 nor 5 is found among 5 and 3. */
  lemma {:induction false} ThreeBehindFive()
    ensures var one := [NewAccount(5)];
            var two := Insert(one, InsertPosition(one, 3, 1), NewAccount(3));
            two == [NewAccount(5), NewAccount(3)] && LimitFindAccount(two, 3) == -1 && LimitFindAccount(two, 5) == -1
  {
    var one := [NewAccount(5)];
    var two := Insert(one, InsertPosition(one, 3, 1), NewAccount(3));
    assert two == [NewAccount(5), NewAccount(3)];
    AccountBelowFirstIsLost(one, 3);
  }

  // ----- what the search finds

  /** Accounts in the order in which insertion leaves them: sorted apart from the first one, and unique above its id. */
  ghost predicate Ordered(accounts: seq<Account>) {
    && (forall i, j :: 1 <= i < j < |accounts| ==> accounts[i].id <= accounts[j].id)
    && (forall i, j :: 0 <= i < j < |accounts| && accounts[j].id > accounts[0].id ==> accounts[i].id < accounts[j].id)
  }

  lemma {:induction false} SearchOrdered(accounts: seq<Account>, a: int, b: int, id: int, k: int)
    requires Ordered(accounts) && 0 <= a <= k <= b < |accounts| && accounts[k].id == id > accounts[0].id
    ensures BinSearchAccount(accounts, a, b, id) == k
    decreases b - a
  {
    var middle := (a + b) / 2;
    if middle < k {
      assert accounts[middle].id < id;
      SearchOrdered(accounts, middle + 1, b, id, k);
    } else if k < middle {
      assert accounts[k].id <= accounts[middle].id && accounts[middle].id > accounts[0].id;
      SearchOrdered(accounts, a, middle - 1, id, k);
    }
  }

  /** Above the first account's id, exactly the accounts that are there are found. */
  lemma {:induction false} FindOrdered(accounts: seq<Account>, id: int, k: int)
    requires Ordered(accounts) && 0 <= k < |accounts| && accounts[k].id == id > accounts[0].id
    ensures LimitFindAccount(accounts, id) == k
  {
    assert accounts[k].id <= accounts[|accounts| - 1].id;
    SearchOrdered(accounts, 0, |accounts| - 1, id, k);
  }

  // ----- the timeline

  /** The index of the entry in force at an instant, or -1 before the first one. */
  ghost function InForce(vs: seq<Limit>, t: int): (k: int)
    ensures -1 <= k < |vs|
    ensures k >= 0 ==> vs[k].timestamp <= t
    ensures forall i :: k < i < |vs| ==> t < vs[i].timestamp
  {
    if vs == [] then -1
    else if vs[|vs| - 1].timestamp <= t then |vs| - 1
    else InForce(vs[..|vs| - 1], t)
  }

  /** The accounts that the timeline records for an instant. */
  ghost function AccountsAt(vs: seq<Limit>, t: int): seq<Account> {
    var k := InForce(vs, t);
    if k < 0 then [] else vs[k].accounts
  }

  /** The CPUs that the timeline records for an instant. */
  ghost function AmountAt(vs: seq<Limit>, t: int, who: Who, c: nat): int {
    CpusIn(AccountsAt(vs, t), who, c)
  }

  /** The timeline has begun, and has not ended. */
  ghost predicate Spans(vs: seq<Limit>, t: int) {
    vs != [] && vs[0].timestamp <= t < vs[|vs| - 1].timestamp
  }

  /** Strictly ascending timestamps, and nothing held from the last one on. */
  ghost predicate Timeline(vs: seq<Limit>) {
    && (forall i, j :: 0 <= i < j < |vs| ==> vs[i].timestamp < vs[j].timestamp)
    && (vs != [] ==> vs[|vs| - 1].accounts == [])
    && (forall i :: 0 <= i < |vs| ==> Shaped(vs[i].accounts))
  }

  ghost predicate Shaped(accounts: seq<Account>) {
    forall i :: 0 <= i < |accounts| ==> |accounts[i].numCpus| == NUM_LIMITS
  }

  ghost predicate SameAccounts(vs: seq<Limit>, ws: seq<Limit>) {
    forall t :: AccountsAt(ws, t) == AccountsAt(vs, t)
  }

  ghost predicate HasStamp(vs: seq<Limit>, ts: int) {
    exists i :: 0 <= i < |vs| && vs[i].timestamp == ts
  }

  ghost predicate KeepsStamps(vs: seq<Limit>, ws: seq<Limit>) {
    forall ts :: HasStamp(vs, ts) ==> HasStamp(ws, ts)
  }

  ghost predicate StampsWithin(vs: seq<Limit>, ws: seq<Limit>, added: set<int>) {
    forall ts :: HasStamp(ws, ts) ==> HasStamp(vs, ts) || ts in added
  }

  /** What opening new entries may change: the entries, not what they record. */
  ghost predicate Refined(vs: seq<Limit>, ws: seq<Limit>, added: set<int>) {
    && SameAccounts(vs, ws) && KeepsStamps(vs, ws) && StampsWithin(vs, ws, added)
    && (vs != [] ==> ws != [] && ws[0].timestamp <= vs[0].timestamp)
  }

  lemma {:induction false} NothingOpened(vs: seq<Limit>, added: set<int>)
    ensures Refined(vs, vs, added)
  {
  }

  lemma {:induction false} StampedAt(vs: seq<Limit>, k: nat)
    requires k < |vs|
    ensures HasStamp(vs, vs[k].timestamp)
  {
  }

  lemma {:induction false} InForceIs(vs: seq<Limit>, t: int, k: int)
    requires Timeline(vs) && -1 <= k < |vs|
    requires k >= 0 ==> vs[k].timestamp <= t
    requires k + 1 < |vs| ==> t < vs[k + 1].timestamp
    ensures InForce(vs, t) == k
  {
  }

  /** An empty entry in front of the first one. */
  lemma {:induction false} PrependEmpty(vs: seq<Limit>, ts: int)
    requires Timeline(vs) && (vs != [] ==> ts < vs[0].timestamp)
    ensures var ws := [Limit(ts, [])] + vs;
            Timeline(ws) && Refined(vs, ws, {ts}) && HasStamp(ws, ts)
  {
    var ws := [Limit(ts, [])] + vs;
    PrependStamps(vs, ts);
    forall t
      ensures AccountsAt(ws, t) == AccountsAt(vs, t)
    {
      var k := InForce(vs, t);
      InForceIs(ws, t, if k >= 0 then k + 1 else if ts <= t then 0 else -1);
    }
  }

  lemma {:induction false} PrependStamps(vs: seq<Limit>, ts: int)
    ensures var ws := [Limit(ts, [])] + vs;
            KeepsStamps(vs, ws) && StampsWithin(vs, ws, {ts}) && HasStamp(ws, ts)
  {
    var ws := [Limit(ts, [])] + vs;
    assert ws[0].timestamp == ts;
    forall s | HasStamp(vs, s)
      ensures HasStamp(ws, s)
    {
      var i :| 0 <= i < |vs| && vs[i].timestamp == s;
      assert ws[i + 1].timestamp == s;
    }
    forall s | HasStamp(ws, s)
      ensures HasStamp(vs, s) || s == ts
    {
      var i :| 0 <= i < |ws| && ws[i].timestamp == s;
      assert i > 0 ==> vs[i - 1].timestamp == s;
    }
  }

  /** A copy of entry k, put behind it with a later timestamp, records nothing new. */
  lemma {:induction false} CloneBehind(vs: seq<Limit>, k: nat, ts: int)
    requires Timeline(vs) && k < |vs| && vs[k].timestamp < ts
    requires k + 1 < |vs| ==> ts < vs[k + 1].timestamp
    ensures var ws := Insert(vs, k + 1, Limit(ts, vs[k].accounts));
            Timeline(ws) && Refined(vs, ws, {ts}) && HasStamp(ws, ts)
  {
    CloneTimeline(vs, k, ts);
    CloneStamps(vs, k, ts);
    var ws := Insert(vs, k + 1, Limit(ts, vs[k].accounts));
    forall t
      ensures AccountsAt(ws, t) == AccountsAt(vs, t)
    {
      CloneAt(vs, k, ts, t);
    }
  }

  lemma {:induction false} CloneAt(vs: seq<Limit>, k: nat, ts: int, t: int)
    requires Timeline(vs) && k < |vs| && vs[k].timestamp < ts
    requires k + 1 < |vs| ==> ts < vs[k + 1].timestamp
    requires Timeline(Insert(vs, k + 1, Limit(ts, vs[k].accounts)))
    ensures AccountsAt(Insert(vs, k + 1, Limit(ts, vs[k].accounts)), t) == AccountsAt(vs, t)
  {
    var j := InForce(vs, t);
    InForceIs(Insert(vs, k + 1, Limit(ts, vs[k].accounts)), t, if j < k || (j == k && t < ts) then j else j + 1);
  }

  /** An empty entry behind the last one. */
  lemma {:induction false} AppendEmpty(vs: seq<Limit>, ts: int)
    requires Timeline(vs) && (vs == [] || vs[|vs| - 1].timestamp < ts)
    ensures var ws := vs + [Limit(ts, [])];
            Timeline(ws) && Refined(vs, ws, {ts}) && HasStamp(ws, ts)
  {
    if vs == [] {
      PrependEmpty(vs, ts);
      return;
    }
    CloneBehind(vs, |vs| - 1, ts);
    assert Insert(vs, |vs|, Limit(ts, [])) == vs + [Limit(ts, [])];
  }

  lemma {:induction false} CloneStamps(vs: seq<Limit>, k: nat, ts: int)
    requires k < |vs|
    ensures var ws := Insert(vs, k + 1, Limit(ts, vs[k].accounts));
            KeepsStamps(vs, ws) && StampsWithin(vs, ws, {ts}) && HasStamp(ws, ts)
  {
    var ws := Insert(vs, k + 1, Limit(ts, vs[k].accounts));
    assert ws[k + 1].timestamp == ts;
    forall s | HasStamp(vs, s)
      ensures HasStamp(ws, s)
    {
      var i :| 0 <= i < |vs| && vs[i].timestamp == s;
      assert ws[if i <= k then i else i + 1].timestamp == s;
    }
    forall s | HasStamp(ws, s)
      ensures HasStamp(vs, s) || s == ts
    {
      var i :| 0 <= i < |ws| && ws[i].timestamp == s;
      assert i != k + 1 ==> vs[if i <= k then i else i - 1].timestamp == s;
    }
  }

  lemma {:induction false} CloneTimeline(vs: seq<Limit>, k: nat, ts: int)
    requires Timeline(vs) && k < |vs| && vs[k].timestamp < ts
    requires k + 1 < |vs| ==> ts < vs[k + 1].timestamp
    ensures Timeline(Insert(vs, k + 1, Limit(ts, vs[k].accounts)))
  {
    var ws := Insert(vs, k + 1, Limit(ts, vs[k].accounts));
    forall i, j | 0 <= i < j < |ws|
      ensures ws[i].timestamp < ws[j].timestamp
    {
      assert ws[i].timestamp == if i <= k then vs[i].timestamp else if i == k + 1 then ts else vs[i - 1].timestamp;
      assert ws[j].timestamp == if j <= k then vs[j].timestamp else if j == k + 1 then ts else vs[j - 1].timestamp;
    }
  }

  /** The accounts of an entry to which n CPUs of an account and class are added; an account that is not found is created. */
  function Charged(accounts: seq<Account>, id: int, cls: nat, n: int): seq<Account> {
    var found := LimitFindAccount(accounts, id);
    if found != -1 then accounts[found := Bump(accounts[found], cls, n)]
    else
      var p := InsertPosition(accounts, id, |accounts|);
      Insert(accounts, p, Bump(NewAccount(id), cls, n))
  }

  function Bump(a: Account, cls: nat, n: int): Account {
    if cls < |a.numCpus| then a.(numCpus := a.numCpus[cls := a.numCpus[cls] + n]) else a
  }

  /** The timeline reaches as far as it did, and over [lo, hi). */
  ghost predicate Extends(vs: seq<Limit>, ws: seq<Limit>, lo: int, hi: int) {
    ws != [] &&
    if vs == [] then ws[0].timestamp == lo && ws[|ws| - 1].timestamp == hi
    else
      && ws[0].timestamp == (if lo < vs[0].timestamp then lo else vs[0].timestamp)
      && ws[|ws| - 1].timestamp == if vs[|vs| - 1].timestamp < hi then hi else vs[|vs| - 1].timestamp
  }

  /** The second timeline records what the first does, and charges n more CPUs to an account and class in [lo, hi). */
  ghost predicate Charges(vs: seq<Limit>, ws: seq<Limit>, lo: int, hi: int, id: int, cls: nat, n: int) {
    forall t :: AccountsAt(ws, t) == if lo <= t < hi then Charged(AccountsAt(vs, t), id, cls, n) else AccountsAt(vs, t)
  }

  ghost predicate SameStamps(vs: seq<Limit>, ws: seq<Limit>) {
    |ws| == |vs| && forall i :: 0 <= i < |vs| ==> ws[i].timestamp == vs[i].timestamp
  }

  /** What booking n CPUs for an account and class in [lo, hi) does to a timeline. */
  ghost predicate Books(vs: seq<Limit>, ws: seq<Limit>, lo: int, hi: int, id: int, cls: nat, n: int) {
    Charges(vs, ws, lo, hi, id, cls, n) && (lo < hi ==> Extends(vs, ws, lo, hi))
  }

  /** One entry holds n more CPUs of an account and class. */
  ghost predicate Holds(was: seq<Account>, now: seq<Account>, id: int, cls: nat, n: int) {
    forall who, c :: CpusIn(now, who, c) == CpusIn(was, who, c) + if c == cls && Matches(who, id) then n else 0
  }

  /** An entry after the booking loop has passed it. */
  ghost predicate EntryBooked(v: Limit, w: Limit, lo: int, hi: int, id: int, cls: nat, n: int) {
    w == Limit(v.timestamp, if lo <= v.timestamp < hi then Charged(v.accounts, id, cls, n) else v.accounts)
  }

  lemma {:induction false} ChargedShape(accounts: seq<Account>, id: int, cls: nat, n: int)
    requires Shaped(accounts)
    ensures Shaped(Charged(accounts, id, cls, n))
  {
    hide LimitFindAccount;
    if LimitFindAccount(accounts, id) == -1 {
      var p := InsertPosition(accounts, id, |accounts|);
      var r := Charged(accounts, id, cls, n);
      forall i | 0 <= i < |r|
        ensures |r[i].numCpus| == NUM_LIMITS
      {
        assert r[i] == if i < p then accounts[i] else if i == p then Bump(NewAccount(id), cls, n) else accounts[i - 1];
      }
    }
  }

  /** Charging adds the CPUs to the account and to the total of the class, and to nothing else. */
  lemma {:induction false} ChargedHolds(accounts: seq<Account>, id: int, cls: nat, n: int)
    requires Shaped(accounts) && cls < NUM_LIMITS
    ensures Holds(accounts, Charged(accounts, id, cls, n), id, cls, n)
  {
    hide LimitFindAccount;
    var found := LimitFindAccount(accounts, id);
    if found != -1 {
      CpusOfBump(accounts, found, cls, n);
    } else {
      var p := InsertPosition(accounts, id, |accounts|);
      var added := Insert(accounts, p, NewAccount(id));
      CpusOfNewAccount(accounts, p, id);
      CpusOfBump(added, p, cls, n);
      assert Charged(accounts, id, cls, n) == added[p := Bump(added[p], cls, n)];
    }
  }

  /** Adding to every entry whose timestamp lies in [lo, hi) books exactly that interval. */
  lemma {:induction false} EntriesBookedAt(vs: seq<Limit>, ws: seq<Limit>, lo: int, hi: int, id: int, cls: nat, n: int, t: int)
    requires Timeline(vs) && |ws| == |vs| && lo < hi && HasStamp(vs, lo) && HasStamp(vs, hi)
    requires forall i :: 0 <= i < |vs| ==> EntryBooked(vs[i], ws[i], lo, hi, id, cls, n)
    ensures AccountsAt(ws, t) == if lo <= t < hi then Charged(AccountsAt(vs, t), id, cls, n) else AccountsAt(vs, t)
  {
    hide Charged, Shaped;
    var a :| 0 <= a < |vs| && vs[a].timestamp == lo;
    var b :| 0 <= b < |vs| && vs[b].timestamp == hi;
    ForceKept(vs, ws, t);
    var k := InForce(vs, t);
    if lo <= t < hi {
      assert a <= k < b;
    } else if k >= 0 {
      assert t < lo ==> vs[k].timestamp < lo;
      assert hi <= t ==> b <= k;
    }
  }

  lemma {:induction false} EntriesBooked(vs: seq<Limit>, ws: seq<Limit>, lo: int, hi: int, id: int, cls: nat, n: int)
    requires Timeline(vs) && |ws| == |vs|
    requires forall i :: 0 <= i < |vs| ==> EntryBooked(vs[i], ws[i], lo, hi, id, cls, n)
    requires lo < hi ==> HasStamp(vs, lo) && HasStamp(vs, hi)
    ensures Timeline(ws) && SameStamps(vs, ws) && Charges(vs, ws, lo, hi, id, cls, n)
  {
    hide Charged, Shaped;
    forall i | 0 <= i < |vs|
      ensures Shaped(ws[i].accounts)
    {
      ChargedShape(vs[i].accounts, id, cls, n);
    }
    if lo < hi {
      forall t
        ensures AccountsAt(ws, t) == if lo <= t < hi then Charged(AccountsAt(vs, t), id, cls, n) else AccountsAt(vs, t)
      {
        EntriesBookedAt(vs, ws, lo, hi, id, cls, n, t);
      }
    } else {
      assert ws == vs;
    }
  }

  lemma {:induction false} ForceKept(vs: seq<Limit>, ws: seq<Limit>, t: int)
    requires |ws| == |vs| && forall i :: 0 <= i < |vs| ==> ws[i].timestamp == vs[i].timestamp
    ensures InForce(ws, t) == InForce(vs, t)
  {
    if vs != [] {
      ForceKept(vs[..|vs| - 1], ws[..|ws| - 1], t);
    }
  }

  // ----- the operations on the timeline

  lemma {:induction false} CpusConcat(a: seq<Account>, b: seq<Account>, who: Who, c: nat)
    ensures CpusIn(a + b, who, c) == CpusIn(a, who, c) + CpusIn(b, who, c)
  {
    if b == [] {
      assert a + b == a;
    } else {
      assert (a + b)[..|a + b| - 1] == a + b[..|b| - 1];
      CpusConcat(a, b[..|b| - 1], who, c);
    }
  }

  lemma {:induction false} CpusOfNewAccount(accounts: seq<Account>, p: nat, id: int)
    requires p <= |accounts|
    ensures forall who, c :: CpusIn(Insert(accounts, p, NewAccount(id)), who, c) == CpusIn(accounts, who, c)
  {
    forall who, c
      ensures CpusIn(Insert(accounts, p, NewAccount(id)), who, c) == CpusIn(accounts, who, c)
    {
      CpusConcat(accounts[..p] + [NewAccount(id)], accounts[p..], who, c);
      CpusConcat(accounts[..p], accounts[p..], who, c);
      assert accounts == accounts[..p] + accounts[p..];
    }
  }

  lemma {:induction false} CpusOfBump(accounts: seq<Account>, p: nat, cls: nat, n: int)
    requires p < |accounts| && cls < |accounts[p].numCpus|
    ensures Holds(accounts, accounts[p := Bump(accounts[p], cls, n)], accounts[p].id, cls, n)
  {
    var now := accounts[p := Bump(accounts[p], cls, n)];
    forall who, c
      ensures CpusIn(now, who, c) ==
              CpusIn(accounts, who, c) + if c == cls && Matches(who, accounts[p].id) then n else 0
    {
      CpusAround(accounts, p, who, c);
      CpusAround(now, p, who, c);
      assert now[..p] == accounts[..p] && now[p + 1..] == accounts[p + 1..];
      assert CpusIn([now[p]], who, c) == CpusIn([accounts[p]], who, c) + if c == cls && Matches(who, accounts[p].id) then n else 0;
    }
  }

  lemma {:induction false} CpusAround(accounts: seq<Account>, p: nat, who: Who, c: nat)
    requires p < |accounts|
    ensures CpusIn(accounts, who, c) == CpusIn(accounts[..p], who, c) + CpusIn([accounts[p]], who, c) + CpusIn(accounts[p + 1..], who, c)
  {
    hide CpusIn;
    CpusConcat(accounts[..p], [accounts[p]], who, c);
    CpusConcat(accounts[..p] + [accounts[p]], accounts[p + 1..], who, c);
    assert accounts == accounts[..p] + [accounts[p]] + accounts[p + 1..];
  }

  /** Adds CPUs to an account of one entry; the account is created when it is not found. */
  method AddLimitToLimit(limit: Item<Limit>, id: int, walltime: int, n: int, thresholds: seq<int>)
    requires Shaped(limit.value.accounts)
    requires WalltimeClass(thresholds, walltime) < NUM_LIMITS
    modifies limit`value
    ensures limit.value.timestamp == old(limit.value.timestamp) && Shaped(limit.value.accounts)
    ensures limit.value.accounts == Charged(old(limit.value.accounts), id, WalltimeClass(thresholds, walltime), n)
    ensures Holds(old(limit.value.accounts), limit.value.accounts, id, WalltimeClass(thresholds, walltime), n)
  {
    hide LimitFindAccount;
    ghost var was := limit.value.accounts;
    var found := LimitFindAccount(limit.value.accounts, id);
    if found == -1 {
      found := LimitAddAccount(limit, id);
    }
    var cls := WalltimeSuitsToLimit(thresholds, walltime);
    var accounts := limit.value.accounts;
    assert |accounts[found].numCpus| == NUM_LIMITS;
    accounts := accounts[found := accounts[found].(numCpus := accounts[found].numCpus[cls := accounts[found].numCpus[cls] + n])];
    limit.value := limit.value.(accounts := accounts);
    assert accounts == Charged(was, id, cls, n);
    ChargedShape(was, id, cls, n);
    ChargedHolds(was, id, cls, n);
  }

  ghost predicate LimitList(list: PlanList<Limit>)
    reads list, list.items
  {
    list.Valid() && Timeline(list.Values())
  }

  /** Opens an empty entry behind the last one. */
  method OpenAtEnd(limits: PlanList<Limit>, ts: int)
    requires LimitList(limits)
    requires limits.items == [] || limits.items[|limits.items| - 1].value.timestamp < ts
    modifies limits, limits.items`successor, limits.items`predecessor
    ensures LimitList(limits)
    ensures forall i :: 0 <= i < |limits.items| ==> limits.items[i] in old(limits.items) || fresh(limits.items[i])
    ensures Refined(old(limits.Values()), limits.Values(), {ts}) && HasStamp(limits.Values(), ts)
    ensures limits.items != [] && (old(limits.items) != [] ==> limits.items[0] == old(limits.items[0]))
  {
    hide Timeline, Refined, HasStamp, PlanList.Valid;
    var created := new Item(Limit(ts, []));
    AppendEmpty(limits.Values(), ts);
    PutLast(limits, created);
  }

  /** Opens an empty entry in front of the first one. */
  method OpenAtBegin(limits: PlanList<Limit>, ts: int)
    requires LimitList(limits)
    requires limits.items == [] || ts < limits.items[0].value.timestamp
    modifies limits, limits.items`successor, limits.items`predecessor
    ensures LimitList(limits)
    ensures forall i :: 0 <= i < |limits.items| ==> limits.items[i] in old(limits.items) || fresh(limits.items[i])
    ensures Refined(old(limits.Values()), limits.Values(), {ts}) && HasStamp(limits.Values(), ts)
    ensures limits.items != [] && limits.items[0].value.timestamp == ts
  {
    hide Timeline, Refined, HasStamp, PlanList.Valid;
    var created := new Item(Limit(ts, []));
    PrependEmpty(limits.Values(), ts);
    PutFirst(limits, created);
  }

  /** Opens an entry that continues the one at position k. */
  method OpenBehind(limits: PlanList<Limit>, limit: Item<Limit>, ts: int, ghost k: nat)
    requires LimitList(limits) && k < |limits.items| - 1 && limits.items[k] == limit
    requires limit.value.timestamp < ts < limits.items[k + 1].value.timestamp
    modifies limits, limits.items`successor, limits.items`predecessor
    ensures LimitList(limits)
    ensures forall i :: 0 <= i < |limits.items| ==> limits.items[i] in old(limits.items) || fresh(limits.items[i])
    ensures Refined(old(limits.Values()), limits.Values(), {ts}) && HasStamp(limits.Values(), ts)
    ensures limits.items != [] && limits.items[0] == old(limits.items[0])
  {
    hide Timeline, Refined, HasStamp, PlanList.Valid;
    var created := new Item(Limit(ts, limit.value.accounts));
    CloneBehind(limits.Values(), k, ts);
    PutBehind(limits, limit, created, k);
  }

  /** Makes sure that an entry begins at the timestamp, unless it lies before the first one. */
  method CloneLimitTimestamp(limits: PlanList<Limit>, ts: int)
    requires LimitList(limits)
    modifies limits, limits.items`successor, limits.items`predecessor
    ensures LimitList(limits)
    ensures forall i :: 0 <= i < |limits.items| ==> limits.items[i] in old(limits.items) || fresh(limits.items[i])
    ensures Refined(old(limits.Values()), limits.Values(), {ts})
    ensures old(limits.items) != [] && old(limits.items[0].value.timestamp) <= ts ==>
              && HasStamp(limits.Values(), ts)
              && limits.items != [] && limits.items[0].value.timestamp == old(limits.items[0].value.timestamp)
  {
    hide Timeline, Refined, HasStamp;
    ghost var vs := limits.Values();
    NothingOpened(vs, {ts});
    ghost var k: nat := 0;
    var limit := Rewind(limits);
    while limit != null
      invariant limits.Valid() && limits.items == old(limits.items) && limits.Values() == vs
      invariant k <= |vs| && limit == limits.current == ItemAt(limits.items, k)
      invariant vs != [] && vs[0].timestamp <= ts ==> k < |vs| && vs[k].timestamp <= ts
      decreases |vs| - k
    {
      assert limit.value == vs[k];
      if limit.value.timestamp == ts {
        StampedAt(vs, k);
        return;
      }
      if limit.successor == null && limit.value.timestamp < ts {
        OpenAtEnd(limits, ts);
        return;
      } else if limit.value.timestamp < ts && limit.successor.value.timestamp > ts {
        OpenBehind(limits, limit, ts, k);
        return;
      }
      limit := Advance(limits, k);
      k := k + 1;
    }
  }

  /** Whether entries begin at the two timestamps. */
  method FindStamps(limits: PlanList<Limit>, start: int, completion: int) returns (foundStart: bool, foundCompletion: bool)
    requires limits.Valid()
    modifies limits`current
    ensures limits.Valid() && limits.Values() == old(limits.Values())
    ensures foundStart <==> HasStamp(limits.Values(), start)
    ensures foundCompletion <==> HasStamp(limits.Values(), completion)
  {
    hide PlanList.Valid;
    ghost var vs := limits.Values();
    ghost var k: nat := 0;
    foundStart, foundCompletion := false, false;
    var limit := Rewind(limits);
    while limit != null
      invariant limits.Valid() && limits.items == old(limits.items) && limits.Values() == vs
      invariant k <= |vs| && limit == limits.current == ItemAt(limits.items, k)
      invariant foundStart <==> exists i :: 0 <= i < k && vs[i].timestamp == start
      invariant foundCompletion <==> exists i :: 0 <= i < k && vs[i].timestamp == completion
      decreases |vs| - k
    {
      assert limit.value == vs[k];
      if limit.value.timestamp == start {
        foundStart := true;
      }
      if limit.value.timestamp == completion {
        foundCompletion := true;
      }
      limit := Advance(limits, k);
      k := k + 1;
    }
  }

  /** Adds a job's CPUs to one entry when it begins in [start, completion). */
  method BookEntry(limit: Item<Limit>, job: Job, thresholds: seq<int>)
    requires Shaped(limit.value.accounts)
    requires WalltimeClass(thresholds, job.completionTime - job.startTime) < NUM_LIMITS
    modifies limit`value
    ensures EntryBooked(old(limit.value), limit.value, job.startTime, job.completionTime,
                        job.accountId, WalltimeClass(thresholds, job.completionTime - job.startTime), job.Cpus())
  {
    hide Holds, WalltimeClass;
    if limit.value.timestamp >= job.startTime && limit.value.timestamp < job.completionTime {
      AddLimitToLimit(limit, job.accountId, job.completionTime - job.startTime, job.Cpus(), thresholds);
    }
  }

  /** Books the entry at position k and steps on. */
  method BookNext(limits: PlanList<Limit>, limit: Item<Limit>, job: Job, thresholds: seq<int>, ghost k: nat) returns (next: Item?<Limit>)
    requires limits.Valid() && k < |limits.items| && limit == limits.current == limits.items[k] && Shaped(limit.value.accounts)
    requires WalltimeClass(thresholds, job.completionTime - job.startTime) < NUM_LIMITS
    modifies limits`current, limit`value
    ensures limits.Valid() && next == limits.current == ItemAt(limits.items, k + 1)
    ensures EntryBooked(old(limit.value), limit.value, job.startTime, job.completionTime,
                        job.accountId, WalltimeClass(thresholds, job.completionTime - job.startTime), job.Cpus())
  {
    hide Holds, Shaped, EntryBooked, WalltimeClass;
    BookEntry(limit, job, thresholds);
    next := Advance(limits, k);
  }

  /** Adds a job's CPUs to every entry that begins in [start, completion). */
  method BookEntries(limits: PlanList<Limit>, job: Job, thresholds: seq<int>)
    requires LimitList(limits)
    requires WalltimeClass(thresholds, job.completionTime - job.startTime) < NUM_LIMITS
    requires job.startTime < job.completionTime ==>
               HasStamp(limits.Values(), job.startTime) && HasStamp(limits.Values(), job.completionTime)
    modifies limits`current, limits.items`value
    ensures LimitList(limits) && SameStamps(old(limits.Values()), limits.Values())
    ensures Charges(old(limits.Values()), limits.Values(), job.startTime, job.completionTime,
                    job.accountId, WalltimeClass(thresholds, job.completionTime - job.startTime), job.Cpus())
  {
    hide Timeline, HasStamp, Charges, SameStamps, Holds, Shaped, EntryBooked, WalltimeClass, PlanList.Valid;
    ghost var lo, hi, id, n := job.startTime, job.completionTime, job.accountId, job.Cpus();
    ghost var cls := WalltimeClass(thresholds, hi - lo);
    ghost var vs := limits.Values();
    ghost var k: nat := 0;
    TimelineShaped(vs);
    var limit := Rewind(limits);
    while limit != null
      invariant limits.Valid() && |limits.items| == |vs|
      invariant k <= |vs| && limit == limits.current == ItemAt(limits.items, k)
      invariant forall i :: 0 <= i < k ==> EntryBooked(vs[i], limits.items[i].value, lo, hi, id, cls, n)
      invariant forall i :: k <= i < |vs| ==> limits.items[i].value == vs[i]
      decreases |vs| - k
    {
      limit := BookNext(limits, limit, job, thresholds, k);
      k := k + 1;
    }
    EntriesBooked(vs, limits.Values(), lo, hi, id, cls, n);
  }

  lemma {:induction false} TimelineShaped(vs: seq<Limit>)
    requires Timeline(vs)
    ensures forall i :: 0 <= i < |vs| ==> Shaped(vs[i].accounts)
  {
  }

  lemma {:induction false} RefinedBooked(vs: seq<Limit>, us: seq<Limit>, ws: seq<Limit>, lo: int, hi: int, id: int, cls: nat, n: int)
    requires Refined(vs, us, {lo, hi}) && Charges(us, ws, lo, hi, id, cls, n) && SameStamps(us, ws)
    requires Timeline(vs) && Timeline(us) && HasStamp(us, lo) && (lo <= hi ==> HasStamp(us, hi))
    ensures Books(vs, ws, lo, hi, id, cls, n)
  {
    assert Charges(vs, ws, lo, hi, id, cls, n) by {
      assert forall t :: AccountsAt(us, t) == AccountsAt(vs, t);
    }
    if lo < hi {
      RefinedExtends(vs, us, lo, hi);
    }
  }

  lemma {:induction false} RefinedExtends(vs: seq<Limit>, us: seq<Limit>, lo: int, hi: int)
    requires Timeline(vs) && Timeline(us) && lo < hi
    requires KeepsStamps(vs, us) && StampsWithin(vs, us, {lo, hi}) && HasStamp(us, lo) && HasStamp(us, hi)
    ensures Extends(vs, us, lo, hi)
  {
    assert HasStamp(us, us[0].timestamp) && HasStamp(us, us[|us| - 1].timestamp);
    if vs != [] {
      assert HasStamp(vs, vs[0].timestamp) && HasStamp(vs, vs[|vs| - 1].timestamp);
    }
  }

  lemma {:induction false} RefinedTrans(vs: seq<Limit>, us: seq<Limit>, ws: seq<Limit>, a: set<int>, b: set<int>)
    requires Refined(vs, us, a) && Refined(us, ws, b) && b <= a
    ensures Refined(vs, ws, a)
  {
    forall t
      ensures AccountsAt(ws, t) == AccountsAt(vs, t)
    {
      assert AccountsAt(us, t) == AccountsAt(vs, t);
    }
  }

  /** A timeline always begins no later than the job that is about to be recorded. */
  method OpenEnds(limits: PlanList<Limit>, start: int, completion: int)
    requires LimitList(limits)
    modifies limits, limits.items`successor, limits.items`predecessor
    ensures LimitList(limits)
    ensures forall i :: 0 <= i < |limits.items| ==> limits.items[i] in old(limits.items) || fresh(limits.items[i])
    ensures Refined(old(limits.Values()), limits.Values(), {start, completion})
    ensures limits.items != [] && limits.items[0].value.timestamp <= start
  {
    hide Timeline, Refined, HasStamp;
    ghost var vs := limits.Values();
    NothingOpened(vs, {start, completion});
    if limits.last == null {
      OpenAtEnd(limits, completion);
      RefinedTrans(vs, vs, limits.Values(), {start, completion}, {completion});
    }
    ghost var us := limits.Values();
    if limits.first.value.timestamp > start {
      OpenAtBegin(limits, start);
      RefinedTrans(vs, us, limits.Values(), {start, completion}, {start});
    }
  }

  /** Opens entries at the start and at the completion of a job; none is needed where one begins already. */
  method OpenStamps(limits: PlanList<Limit>, start: int, completion: int)
    requires LimitList(limits)
    modifies limits, limits.items`successor, limits.items`predecessor
    ensures LimitList(limits)
    ensures forall i :: 0 <= i < |limits.items| ==> limits.items[i] in old(limits.items) || fresh(limits.items[i])
    ensures Refined(old(limits.Values()), limits.Values(), {start, completion})
    ensures HasStamp(limits.Values(), start)
    ensures start <= completion ==> HasStamp(limits.Values(), completion)
  {
    hide Timeline, Refined, HasStamp, PlanList.Valid;
    ghost var vs := limits.Values();
    OpenEnds(limits, start, completion);
    ghost var us := limits.Values();
    var foundStart, foundCompletion := FindStamps(limits, start, completion);
    if !foundStart {
      CloneLimitTimestamp(limits, start);
      RefinedTrans(vs, us, limits.Values(), {start, completion}, {start});
      StampsKept(us, limits.Values(), {start}, completion);
    }
    us := limits.Values();
    if !foundCompletion {
      CloneLimitTimestamp(limits, completion);
      RefinedTrans(vs, us, limits.Values(), {start, completion}, {completion});
      StampsKept(us, limits.Values(), {completion}, start);
    }
  }

  lemma {:induction false} StampsKept(vs: seq<Limit>, ws: seq<Limit>, added: set<int>, ts: int)
    requires Refined(vs, ws, added)
    ensures HasStamp(vs, ts) ==> HasStamp(ws, ts)
  {
  }

  /**
   Records a job: at every instant of [start, completion) its account and class
   hold the job's CPUs more than before, and nothing else changes.
   */
  method AddJobToLimits(limits: PlanList<Limit>, job: Job, thresholds: seq<int>)
    requires LimitList(limits)
    requires WalltimeClass(thresholds, job.completionTime - job.startTime) < NUM_LIMITS
    modifies limits, limits.items
    ensures LimitList(limits)
    ensures forall i :: 0 <= i < |limits.items| ==> limits.items[i] in old(limits.items) || fresh(limits.items[i])
    ensures Books(old(limits.Values()), limits.Values(), job.startTime, job.completionTime,
                  job.accountId, WalltimeClass(thresholds, job.completionTime - job.startTime), job.reqPpn * job.reqNumNodes)
  {
    hide Timeline, HasStamp, Books, Charges, SameStamps, Refined, WalltimeClass, PlanList.Valid;
    ghost var vs := limits.Values();
    OpenStamps(limits, job.startTime, job.completionTime);
    ghost var us := limits.Values();
    BookEntries(limits, job, thresholds);
    RefinedBooked(vs, us, limits.Values(), job.startTime, job.completionTime, job.accountId,
                  WalltimeClass(thresholds, job.completionTime - job.startTime), job.Cpus());
  }

  /** Booking adds the CPUs to the account and to the total of the class in the interval, and to nothing else. */
  lemma {:induction false} BookedAmounts(vs: seq<Limit>, ws: seq<Limit>, lo: int, hi: int, id: int, cls: nat, n: int)
    requires Timeline(vs) && Books(vs, ws, lo, hi, id, cls, n) && cls < NUM_LIMITS
    ensures forall t, who, c ::
              AmountAt(ws, t, who, c) ==
              AmountAt(vs, t, who, c) + if lo <= t < hi && c == cls && Matches(who, id) then n else 0
  {
    hide Charged;
    forall t, who, c
      ensures AmountAt(ws, t, who, c) ==
              AmountAt(vs, t, who, c) + if lo <= t < hi && c == cls && Matches(who, id) then n else 0
    {
      assert AccountsAt(ws, t) == if lo <= t < hi then Charged(AccountsAt(vs, t), id, cls, n) else AccountsAt(vs, t);
      ChargedHolds(AccountsAt(vs, t), id, cls, n);
    }
  }

  // ----- delaying a job until the limits allow it

  method SumLimitsOfLimit(limit: Limit, cls: nat) returns (sum: int)
    requires Shaped(limit.accounts) && cls < NUM_LIMITS
    ensures sum == CpusIn(limit.accounts, Everyone, cls)
  {
    sum := 0;
    for i := 0 to |limit.accounts|
      invariant sum == CpusIn(limit.accounts[..i], Everyone, cls)
    {
      assert limit.accounts[..i + 1][..i] == limit.accounts[..i];
      sum := sum + limit.accounts[i].numCpus[cls];
    }
    assert limit.accounts[..|limit.accounts|] == limit.accounts;
  }

  /** A request for n CPUs of a class, by an account, for some time. */
  datatype Request = Request(id: int, cls: nat, n: int, duration: int)

  function RequestOf(job: Job, cfg: Config): Request {
    Request(job.accountId, WalltimeClass(cfg.thresholds, job.estimatedProcessing), job.reqPpn * job.reqNumNodes, job.estimatedProcessing)
  }

  ghost predicate OverTotal(accounts: seq<Account>, r: Request, cfg: Config)
    requires r.cls < |cfg.total|
  {
    CpusIn(accounts, Everyone, r.cls) + r.n > cfg.total[r.cls]
  }

  /** An account that is not found passes, whatever it asks for. */
  ghost predicate OverUser(accounts: seq<Account>, r: Request, cfg: Config)
    requires r.cls < |cfg.user|
  {
    var found := LimitFindAccount(accounts, r.id);
    found != -1 && ClassCpus(accounts[found], r.cls) + r.n > cfg.user[r.cls]
  }

  ghost predicate Exceeded(accounts: seq<Account>, r: Request, cfg: Config)
    requires r.cls < |cfg.total| && r.cls < |cfg.user|
  {
    OverTotal(accounts, r, cfg) || OverUser(accounts, r, cfg)
  }

  /** Entry i holds the start, or begins inside (start, start + duration). The last one never holds a start. */
  ghost predicate Overlaps(vs: seq<Limit>, i: nat, start: int, duration: int)
    requires i < |vs|
  {
    || (i + 1 < |vs| && vs[i].timestamp <= start < vs[i + 1].timestamp)
    || start < vs[i].timestamp < start + duration
  }

  ghost predicate BlockedBy(vs: seq<Limit>, i: nat, start: int, r: Request, cfg: Config)
    requires i < |vs| && r.cls < |cfg.total| && r.cls < |cfg.user|
  {
    Overlaps(vs, i, start, r.duration) && Exceeded(vs[i].accounts, r, cfg)
  }

  ghost predicate Blocked(vs: seq<Limit>, start: int, r: Request, cfg: Config)
    requires r.cls < |cfg.total| && r.cls < |cfg.user|
  {
    exists i :: 0 <= i < |vs| && BlockedBy(vs, i, start, r, cfg)
  }

  /** The least start from s0 on that no entry blocks. */
  ghost predicate EarliestStart(vs: seq<Limit>, s0: int, s: int, r: Request, cfg: Config)
    requires r.cls < |cfg.total| && r.cls < |cfg.user|
  {
    && s0 <= s && !Blocked(vs, s, r, cfg)
    && forall u :: s0 <= u < s ==> Blocked(vs, u, r, cfg)
  }

  /** The state of the adjusting loop in front of entry k. */
  ghost predicate AdjustedUpTo(vs: seq<Limit>, k: nat, s0: int, s: int, r: Request, cfg: Config)
    requires r.cls < |cfg.total| && r.cls < |cfg.user|
  {
    && s0 <= s
    && (forall i :: 0 <= i < k && i < |vs| ==> !BlockedBy(vs, i, s, r, cfg))
    && (forall u :: s0 <= u < s ==> Blocked(vs, u, r, cfg))
  }

  lemma {:induction false} AdjustPassed(vs: seq<Limit>, k: nat, s0: int, s: int, r: Request, cfg: Config)
    requires k < |vs| && r.cls < |cfg.total| && r.cls < |cfg.user|
    requires AdjustedUpTo(vs, k, s0, s, r, cfg) && !BlockedBy(vs, k, s, r, cfg)
    ensures AdjustedUpTo(vs, k + 1, s0, s, r, cfg)
  {
  }

  /** The start moves to the end of the entry that blocks it: everything in between is blocked, too. */
  lemma {:induction false} AdjustMoved(vs: seq<Limit>, k: nat, s0: int, s: int, r: Request, cfg: Config)
    requires Timeline(vs) && k + 1 < |vs| && r.cls < |cfg.total| && r.cls < |cfg.user|
    requires AdjustedUpTo(vs, k, s0, s, r, cfg) && BlockedBy(vs, k, s, r, cfg)
    ensures AdjustedUpTo(vs, k + 1, s0, vs[k + 1].timestamp, r, cfg)
  {
    var s' := vs[k + 1].timestamp;
    assert vs[k].timestamp < s';
    forall u | s0 <= u < s'
      ensures Blocked(vs, u, r, cfg)
    {
      if s <= u {
        assert BlockedBy(vs, k, u, r, cfg);
      }
    }
    forall i | 0 <= i < k + 1
      ensures !BlockedBy(vs, i, s', r, cfg)
    {
      assert vs[i + 1].timestamp <= s';
    }
  }

  /** The last entry blocks only a list of one entry that has to hold more than the total limit. */
  lemma {:induction false} LastNeverBlocks(vs: seq<Limit>, s0: int, s: int, r: Request, cfg: Config)
    requires Timeline(vs) && vs != [] && r.cls < |cfg.total| && r.cls < |cfg.user|
    requires AdjustedUpTo(vs, |vs| - 1, s0, s, r, cfg)
    requires forall i :: 0 <= i < |vs| ==> CpusIn(vs[i].accounts, Everyone, r.cls) >= 0
    requires |vs| == 1 ==> r.n <= cfg.total[r.cls]
    ensures !BlockedBy(vs, |vs| - 1, s, r, cfg)
  {
    var k := InForce(vs, s);
    var j := if k >= 0 then k else 0;
    if j < |vs| - 1 {
      assert !BlockedBy(vs, j, s, r, cfg);
    }
  }

  /** The branches of the loop body for one entry decide BlockedBy. */
  method EntryBlocks(limit: Item<Limit>, job: Job, cls: nat, cfg: Config, ghost vs: seq<Limit>, ghost k: nat)
    returns (blocks: bool)
    requires k < |vs| && limit.value == vs[k] && Timeline(vs) && cfg.Valid() && cls < |cfg.total|
    requires if k + 1 < |vs| then limit.successor != null && limit.successor.value == vs[k + 1] else limit.successor == null
    requires job.completionTime == job.startTime + job.estimatedProcessing
    ensures blocks <==> BlockedBy(vs, k, job.startTime, Request(job.accountId, cls, job.Cpus(), job.estimatedProcessing), cfg)
  {
    TimelineShaped(vs);
    var overlaps := (limit.successor != null && limit.value.timestamp <= job.startTime && limit.successor.value.timestamp > job.startTime)
                    || (limit.value.timestamp > job.startTime && limit.value.timestamp < job.completionTime);
    if overlaps {
      var globalLimitValue := SumLimitsOfLimit(limit.value, cls);
      if globalLimitValue + job.Cpus() > cfg.total[cls] {
        return true;
      }
    }
    var found := LimitFindAccount(limit.value.accounts, job.accountId);
    if found == -1 {
      return false;
    }
    return overlaps && limit.value.accounts[found].numCpus[cls] + job.Cpus() > cfg.user[cls];
  }

  /** One turn of the adjusting loop. */
  method AdjustToEntry(limit: Item<Limit>, job: Item<Job>, cls: nat, cfg: Config, ghost vs: seq<Limit>, ghost k: nat, ghost s0: int)
    requires k < |vs| && limit.value == vs[k] && Timeline(vs) && cfg.Valid()
    requires cls == RequestOf(job.value, cfg).cls < |cfg.total|
    requires if k + 1 < |vs| then limit.successor != null && limit.successor.value == vs[k + 1] else limit.successor == null
    requires job.value.completionTime == job.value.startTime + job.value.estimatedProcessing
    requires AdjustedUpTo(vs, k, s0, job.value.startTime, RequestOf(job.value, cfg), cfg)
    requires k == |vs| - 1 ==> !BlockedBy(vs, k, job.value.startTime, RequestOf(job.value, cfg), cfg)
    modifies job`value
    ensures job.value == old(job.value).(startTime := job.value.startTime, completionTime := job.value.completionTime)
    ensures job.value.completionTime == job.value.startTime + job.value.estimatedProcessing
    ensures AdjustedUpTo(vs, k + 1, s0, job.value.startTime, RequestOf(old(job.value), cfg), cfg)
  {
    hide Timeline, AdjustedUpTo, BlockedBy;
    var blocks := EntryBlocks(limit, job.value, cls, cfg, vs, k);
    if blocks {
      AdjustMoved(vs, k, s0, job.value.startTime, RequestOf(job.value, cfg), cfg);
      var start := limit.successor.value.timestamp;
      job.value := job.value.(startTime := start, completionTime := start + job.value.estimatedProcessing);
    } else {
      AdjustPassed(vs, k, s0, job.value.startTime, RequestOf(job.value, cfg), cfg);
    }
  }

  /** Delays a job to the least start that no entry of the timeline blocks. */
  method AdjustJobStarttime(limits: PlanList<Limit>, job: Item<Job>, cfg: Config)
    requires LimitList(limits) && cfg.Valid()
    requires WalltimeClass(cfg.thresholds, job.value.estimatedProcessing) < |cfg.thresholds|
    requires job.value.completionTime == job.value.startTime + job.value.estimatedProcessing
    requires forall i :: 0 <= i < |limits.items| ==>
      CpusIn(limits.items[i].value.accounts, Everyone, RequestOf(job.value, cfg).cls) >= 0
    requires |limits.items| == 1 ==> job.value.Cpus() <= cfg.total[RequestOf(job.value, cfg).cls]
    modifies limits`current, job`value
    ensures LimitList(limits) && limits.Values() == old(limits.Values())
    ensures job.value == old(job.value).(startTime := job.value.startTime, completionTime := job.value.completionTime)
    ensures job.value.completionTime == job.value.startTime + job.value.estimatedProcessing
    ensures EarliestStart(limits.Values(), old(job.value.startTime), job.value.startTime,
                          RequestOf(old(job.value), cfg), cfg)
  {
    hide Timeline, AdjustedUpTo, BlockedBy, EarliestStart, WalltimeClass, PlanList.Valid;
    ghost var vs, s0, r := limits.Values(), job.value.startTime, RequestOf(job.value, cfg);
    ghost var k: nat := 0;
    var cls := WalltimeSuitsToLimit(cfg.thresholds, job.value.estimatedProcessing);
    AdjustBegins(vs, s0, r, cfg);
    var limit := Rewind(limits);
    while limit != null
      invariant limits.Valid() && limits.items == old(limits.items) && limits.Values() == vs
      invariant k <= |vs| && limit == limits.current == ItemAt(limits.items, k)
      invariant job.value == old(job.value).(startTime := job.value.startTime, completionTime := job.value.completionTime)
      invariant job.value.completionTime == job.value.startTime + job.value.estimatedProcessing
      invariant AdjustedUpTo(vs, k, s0, job.value.startTime, r, cfg)
      decreases |vs| - k
    {
      assert limit.value == vs[k];
      if k == |vs| - 1 {
        LastNeverBlocks(vs, s0, job.value.startTime, r, cfg);
      }
      AdjustToEntry(limit, job, cls, cfg, vs, k, s0);
      limit := Advance(limits, k);
      k := k + 1;
    }
    AdjustEnds(vs, s0, job.value.startTime, r, cfg);
  }

  lemma {:induction false} AdjustBegins(vs: seq<Limit>, s0: int, r: Request, cfg: Config)
    requires r.cls < |cfg.total| && r.cls < |cfg.user|
    ensures AdjustedUpTo(vs, 0, s0, s0, r, cfg)
  {
  }

  lemma {:induction false} AdjustEnds(vs: seq<Limit>, s0: int, s: int, r: Request, cfg: Config)
    requires r.cls < |cfg.total| && r.cls < |cfg.user|
    requires AdjustedUpTo(vs, |vs|, s0, s, r, cfg)
    ensures EarliestStart(vs, s0, s, r, cfg)
  {
  }

  /** A timeline to which some job was added, or none. */
  ghost predicate Settled(vs: seq<Limit>) {
    && |vs| != 1
    && forall i, c :: 0 <= i < |vs| && 0 <= c < NUM_LIMITS ==> CpusIn(vs[i].accounts, Everyone, c) >= 0
  }

  /**
   What blocks a start, in terms of instants: at some instant of the job, inside
   the span of the timeline, the accounts have no room for it.
   */
  lemma {:induction false} BlockedIffExceeded(vs: seq<Limit>, start: int, r: Request, cfg: Config)
    requires Timeline(vs) && Settled(vs) && cfg.Valid() && r.cls < |cfg.total|
    requires r.duration > 0
    ensures Blocked(vs, start, r, cfg) <==>
            exists t :: start <= t < start + r.duration && Spans(vs, t) && Exceeded(AccountsAt(vs, t), r, cfg)
  {
    if i :| 0 <= i < |vs| && BlockedBy(vs, i, start, r, cfg) {
      if i < |vs| - 1 {
        var t := if start < vs[i].timestamp then vs[i].timestamp else start;
        InForceIs(vs, t, i);
        assert Spans(vs, t);
      } else {
        var t := vs[i].timestamp - 1;
        assert OverTotal(AccountsAt(vs, t), r, cfg);
        assert Spans(vs, t);
      }
    }
    if t :| start <= t < start + r.duration && Spans(vs, t) && Exceeded(AccountsAt(vs, t), r, cfg) {
      assert BlockedBy(vs, InForce(vs, t), start, r, cfg);
    }
  }

  /** A start that is not blocked leaves room under the total limit at every instant of the job. */
  lemma {:induction false} UnblockedHasRoom(vs: seq<Limit>, start: int, r: Request, cfg: Config, t: int)
    requires Timeline(vs) && r.cls < |cfg.total| && r.cls < |cfg.user|
    requires !Blocked(vs, start, r, cfg) && start <= t < start + r.duration
    ensures AmountAt(vs, t, Everyone, r.cls) + r.n <= cfg.total[r.cls]
            || AmountAt(vs, t, Everyone, r.cls) == 0
  {
    var k := InForce(vs, t);
    if 0 <= k < |vs| - 1 {
      assert Overlaps(vs, k, start, r.duration);
      assert !BlockedBy(vs, k, start, r, cfg);
    }
  }

  // ----- the limit of an account

  /** Accounts in which the search finds an account whenever it is there. */
  ghost predicate Finds(accounts: seq<Account>, id: int) {
    Ordered(accounts) && (accounts == [] || accounts[0].id < id || (accounts[0].id == id && SortedIds(accounts)))
  }

  lemma {:induction false} FindsIt(accounts: seq<Account>, id: int, k: nat)
    requires Finds(accounts, id) && k < |accounts| && accounts[k].id == id
    ensures LimitFindAccount(accounts, id) == k
    ensures forall i :: 0 <= i < |accounts| && i != k ==> accounts[i].id != id
  {
    if accounts[0].id < id {
      FindOrdered(accounts, id, k);
    } else {
      FindComplete(accounts, id);
    }
  }

  /** The CPUs of an account that is entered once. */
  lemma {:induction false} CpusOfOne(accounts: seq<Account>, id: int, k: int, c: nat)
    requires forall i :: 0 <= i < |accounts| && i != k ==> accounts[i].id != id
    ensures CpusIn(accounts, Only(id), c) ==
            if 0 <= k < |accounts| && accounts[k].id == id then ClassCpus(accounts[k], c) else 0
  {
    if accounts != [] {
      CpusOfOne(accounts[..|accounts| - 1], id, k, c);
    }
  }

  /** Accounts that are not exceeded have room for the account's own limit, too, where the search finds it. */
  lemma {:induction false} RoomForAccount(accounts: seq<Account>, r: Request, cfg: Config)
    requires Finds(accounts, r.id) && r.cls < |cfg.user| && !OverUser(accounts, r, cfg)
    ensures CpusIn(accounts, Only(r.id), r.cls) + r.n <= cfg.user[r.cls] || CpusIn(accounts, Only(r.id), r.cls) == 0
  {
    if k :| 0 <= k < |accounts| && accounts[k].id == r.id {
      FindsIt(accounts, r.id, k);
      CpusOfOne(accounts, r.id, k, r.cls);
    } else {
      CpusOfOne(accounts, r.id, -1, r.cls);
    }
  }

  /** Where the search finds it, a recorded account is over its limit in terms of what it holds. */
  lemma {:induction false} OverUserIff(accounts: seq<Account>, r: Request, cfg: Config)
    requires Finds(accounts, r.id) && r.cls < |cfg.user|
    ensures OverUser(accounts, r, cfg) <==>
            (exists k :: 0 <= k < |accounts| && accounts[k].id == r.id) && CpusIn(accounts, Only(r.id), r.cls) + r.n > cfg.user[r.cls]
  {
    if k :| 0 <= k < |accounts| && accounts[k].id == r.id {
      FindsIt(accounts, r.id, k);
      CpusOfOne(accounts, r.id, k, r.cls);
    }
  }

  /**
   What blocks a start, in terms of amounts: at some instant of the job, inside the
   span of the timeline, the job and what all hold of its class pass the total limit,
   or its account is recorded and passes its own limit with the job.
   */
  lemma {:induction false} BlockedIffNoRoom(vs: seq<Limit>, start: int, r: Request, cfg: Config)
    requires Timeline(vs) && Settled(vs) && cfg.Valid() && r.cls < |cfg.total| && r.duration > 0
    requires forall t :: Spans(vs, t) ==> Finds(AccountsAt(vs, t), r.id)
    ensures Blocked(vs, start, r, cfg) <==>
            exists t :: start <= t < start + r.duration && Spans(vs, t) && PassesLimit(vs, t, r, cfg)
  {
    hide Blocked, Spans, Exceeded, PassesLimit, Finds;
    BlockedIffExceeded(vs, start, r, cfg);
    forall t | Spans(vs, t)
      ensures Exceeded(AccountsAt(vs, t), r, cfg) <==> PassesLimit(vs, t, r, cfg)
    {
      ExceededIff(vs, t, r, cfg);
    }
  }

  ghost predicate PassesLimit(vs: seq<Limit>, t: int, r: Request, cfg: Config)
    requires r.cls < |cfg.total| && r.cls < |cfg.user|
  {
    || AmountAt(vs, t, Everyone, r.cls) + r.n > cfg.total[r.cls]
    || ((exists k :: 0 <= k < |AccountsAt(vs, t)| && AccountsAt(vs, t)[k].id == r.id)
        && AmountAt(vs, t, Only(r.id), r.cls) + r.n > cfg.user[r.cls])
  }

  lemma {:induction false} ExceededIff(vs: seq<Limit>, t: int, r: Request, cfg: Config)
    requires Finds(AccountsAt(vs, t), r.id) && r.cls < |cfg.total| && r.cls < |cfg.user|
    ensures Exceeded(AccountsAt(vs, t), r, cfg) <==> PassesLimit(vs, t, r, cfg)
  {
    hide OverUser, Finds, AccountsAt, CpusIn;
    OverUserIff(AccountsAt(vs, t), r, cfg);
  }

  /** A start that is not blocked leaves room under the limit of the account, where the search finds it. */
  lemma {:induction false} UnblockedHasUserRoom(vs: seq<Limit>, start: int, r: Request, cfg: Config, t: int)
    requires Timeline(vs) && r.cls < |cfg.total| && r.cls < |cfg.user|
    requires !Blocked(vs, start, r, cfg) && start <= t < start + r.duration
    requires Finds(AccountsAt(vs, t), r.id)
    ensures AmountAt(vs, t, Only(r.id), r.cls) + r.n <= cfg.user[r.cls]
            || AmountAt(vs, t, Only(r.id), r.cls) == 0
  {
    var k := InForce(vs, t);
    if 0 <= k < |vs| - 1 {
      assert Overlaps(vs, k, start, r.duration);
      assert !BlockedBy(vs, k, start, r, cfg);
      RoomForAccount(vs[k].accounts, r, cfg);
    }
  }

  /** Ascending order, apart from the first account, survives every booking. */
  lemma {:induction false} ChargedOrdered(accounts: seq<Account>, id: int, cls: nat, n: int)
    requires Ordered(accounts)
    ensures Ordered(Charged(accounts, id, cls, n))
    ensures var after := Charged(accounts, id, cls, n);
            after != [] && after[0].id == if accounts == [] then id else accounts[0].id
  {
    var found := LimitFindAccount(accounts, id);
    var after := Charged(accounts, id, cls, n);
    if found == -1 {
      var p := InsertPosition(accounts, id, |accounts|);
      forall k | 0 <= k < |accounts| && id > accounts[0].id
        ensures accounts[k].id != id
      {
        if accounts[k].id == id {
          FindOrdered(accounts, id, k);
        }
      }
      InsertOrdered(accounts, p, Bump(NewAccount(id), cls, n));
    } else {
      assert forall i :: 0 <= i < |after| ==> after[i].id == accounts[i].id;
    }
  }

  lemma {:induction false} InsertOrdered(accounts: seq<Account>, p: nat, a: Account)
    requires Ordered(accounts) && p <= |accounts| && (accounts != [] ==> p > 0)
    requires p > 1 ==> accounts[p - 1].id <= a.id
    requires p < |accounts| ==> a.id < accounts[p].id
    requires accounts != [] && a.id > accounts[0].id ==> forall k :: 0 <= k < |accounts| ==> accounts[k].id != a.id
    ensures Ordered(Insert(accounts, p, a))
  {
    var after := Insert(accounts, p, a);
    forall i, j | 0 <= i < j < |after|
      ensures i >= 1 ==> after[i].id <= after[j].id
      ensures after[j].id > after[0].id ==> after[i].id < after[j].id
    {
      assert after[i] == if i < p then accounts[i] else if i == p then a else accounts[i - 1];
      assert after[j] == if j < p then accounts[j] else if j == p then a else accounts[j - 1];
      assert 1 <= i < p ==> accounts[i].id <= accounts[p - 1].id;
      assert p < j ==> accounts[p].id <= accounts[j - 1].id;
    }
  }

  /** As long as no account comes below the first one, all of them are in ascending order. */
  lemma {:induction false} ChargedSorted(accounts: seq<Account>, id: int, cls: nat, n: int)
    requires SortedIds(accounts) && (accounts == [] || accounts[0].id <= id)
    ensures SortedIds(Charged(accounts, id, cls, n))
  {
    var after := Charged(accounts, id, cls, n);
    if LimitFindAccount(accounts, id) == -1 {
      FindComplete(accounts, id);
      AddKeepsOrderIff(accounts, id);
      var added := Insert(accounts, InsertPosition(accounts, id, |accounts|), NewAccount(id));
      assert |after| == |added| && forall i :: 0 <= i < |after| ==> after[i].id == added[i].id;
    }
  }
}
