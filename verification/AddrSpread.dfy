/**
 How far one network group can spread in the manager: the few buckets its addresses, or the
 addresses it announces, can fall into, and so how many entries it can hold.
 */
module AddrSpread {
  import opened AddrTables
  import opened AddrOps
  import opened AddrFile

  /** The values of the first `n` numbers under `f`. */
  function Image(f: nat -> nat, n: nat): (s: set<nat>)
    ensures |s| <= n
  {
    if n == 0 then {} else Image(f, n - 1) + {f(n - 1)}
  }

  lemma {:induction false} InImage(f: nat -> nat, n: nat, i: nat)
    requires i < n
    ensures f(i) in Image(f, n)
  {
    if i < n - 1 { InImage(f, n - 1, i); }
  }

  /** The tried buckets open to a group. */
  function TriedBucketsOf(env: Env, key: nat, group: nat): (s: set<nat>)
    ensures |s| <= 8
  {
    Image(i => env.hash(TriedMsg(key, group, i)) % TRIED_BUCKET_COUNT, 8)
  }

  /** The new buckets open to what a group announces. */
  function NewBucketsOf(env: Env, key: nat, group: nat): (s: set<nat>)
    ensures |s| <= 64
  {
    Image(i => env.hash(NewMsg(key, group, i)) % NEW_BUCKET_COUNT, 64)
  }

  lemma TriedBucketOpen(env: Env, key: nat, service: Service)
    ensures TriedBucket(env, key, service) in TriedBucketsOf(env, key, env.group(service.net))
  {
    var group := env.group(service.net);
    InImage(i => env.hash(TriedMsg(key, group, i)) % TRIED_BUCKET_COUNT, 8, env.hash(AddrMsg(key, service)) % 8);
  }

  /** Whatever it announces, one source group reaches at most 64 new buckets. */
  lemma NewBucketOpen(env: Env, key: nat, service: Service, source: NetAddr)
    ensures NewBucket(env, key, service, source) in NewBucketsOf(env, key, env.group(source))
  {
    var group := env.group(source);
    InImage(i => env.hash(NewMsg(key, group, i)) % NEW_BUCKET_COUNT, 64,
            env.hash(GroupsMsg(key, env.group(service.net), group)) % 64);
  }

  lemma {:induction false} SlotsInBuckets(slots: set<Slot>, buckets: set<nat>, size: nat)
    requires forall s :: s in slots ==> s.bucket in buckets && s.pos < size
    ensures |slots| <= |buckets| * size
    decreases |slots|
  {
    if slots != {} {
      var s :| s in slots;
      var b := s.bucket;
      var mine := set t | t in slots && t.bucket == b;
      SlotsInBuckets(slots - mine, buckets - {b}, size);
      OneBucketSize(mine, b, size);
      assert slots == (slots - mine) + mine;
      assert |buckets| * size == (|buckets| - 1) * size + size;
    } else {
      assert 0 <= |buckets| * size;
    }
  }

  function TriedOfGroup(st: State, group: nat): set<int> {
    set id | id in st.infos && st.infos[id].inTried && st.env.group(st.infos[id].service.net) == group
  }

  /** One group holds at most 512 of the 16384 places in the tried table. */
  lemma TriedShare(st: State, group: nat)
    requires Inv(st)
    ensures |TriedOfGroup(st, group)| <= 512
  {
    hide RandomOk, AddrOk, NewOk, RefOk, EntriesOk, CountOk, TriedSlot, TriedBucketsOf;
    var ids := TriedOfGroup(st, group);
    var tab := map s | s in st.triedTab && st.triedTab[s] in ids :: st.triedTab[s];
    forall id: int | id in ids
      ensures SlotsOf(tab, id) != {}
    {
      assert TriedSlot(st.env, st.key, st.infos[id].service) in SlotsOf(tab, id);
    }
    OwnersSize(tab, ids);
    forall s | s in tab.Keys
      ensures s.bucket in TriedBucketsOf(st.env, st.key, group) && s.pos < 64
    {
      assert TriedSlotOk(st.env, st.key, st.infos, s, st.triedTab[s]);
      TriedSlotIs(st.env, st.key, st.infos[st.triedTab[s]].service);
      TriedBucketOpen(st.env, st.key, st.infos[st.triedTab[s]].service);
    }
    SlotsInBuckets(tab.Keys, TriedBucketsOf(st.env, st.key, group), 64);
  }

  lemma TriedSlotIs(env: Env, key: nat, service: Service)
    ensures TriedSlot(env, key, service).bucket == TriedBucket(env, key, service)
    ensures TriedSlot(env, key, service).pos < 64
  {
  }
}
