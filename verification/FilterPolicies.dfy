// The filter policy of a database (db/dbformat.cc): a Bloom filter over user keys, asked
// and told about internal keys.
module FilterPolicies {
  import opened Coding
  import opened KeyOrder
  import opened Blocks
  import opened FilterBlocks
  import Bloom

  datatype Policy = Policy(hash: Bloom.Hash, bitsPerKey: nat)

  /** The user key of a stored internal key, which has eight more bytes. */
  function ExtractUserKey(key: Bytes): Bytes {
    if |key| < 8 then key else key[..|key| - 8]
  }

  function UserKeys(keys: seq<Bytes>): (r: seq<Bytes>)
    ensures |r| == |keys| && forall i :: 0 <= i < |r| ==> r[i] == ExtractUserKey(keys[i])
  {
    seq(|keys|, i requires 0 <= i < |keys| => ExtractUserKey(keys[i]))
  }

  predicate SameUserKey(a: Bytes, b: Bytes) {
    ExtractUserKey(a) == ExtractUserKey(b)
  }

  /** InternalFilterPolicy::CreateFilter. */
  function PolicyCreate(p: Policy): Create {
    keys => Bloom.Filter(p.hash, p.bitsPerKey, UserKeys(keys))
  }

  /** InternalFilterPolicy::KeyMayMatch. */
  function PolicyMatch(p: Policy): Match {
    (key, filter) => Bloom.MayMatch(p.hash, ExtractUserKey(key), filter)
  }

  /** Whatever is asked about a user key that was added, under any sequence number, the
      policy's filter does not rule it out. */
  lemma {:induction false} PolicyIsSound(p: Policy)
    ensures Sound(PolicyCreate(p), PolicyMatch(p), SameUserKey)
  {
    var create, matches := PolicyCreate(p), PolicyMatch(p);
    forall keys: seq<Bytes>, i: int, q: Bytes {:trigger SameUserKey(keys[i], q), create(keys)} |
      0 <= i < |keys| && SameUserKey(keys[i], q) ensures matches(q, create(keys)) {
      Bloom.AddedMayMatch(p.hash, p.bitsPerKey, UserKeys(keys), i);
    }
  }

  lemma {:induction false} StoredUserKey(k: IKey)
    ensures ExtractUserKey(Stored(k)) == k.user
  {
  }

  /** A finished filter block does not hide a key that was added at an offset: asked there
      about the same user key under any sequence number and type, it may match. */
  lemma {:induction false} BloomNeverHides(p: Policy, filters: seq<seq<Bytes>>, offsets: seq<nat>, o: nat, added: IKey, asked: IKey)
    requires OffsetsAre(PolicyCreate(p), filters, offsets) && |Results(PolicyCreate(p), filters)| < TWO_32
    requires o / BASE < |filters| && Stored(added) in filters[o / BASE] && added.user == asked.user
    ensures var result := Results(PolicyCreate(p), filters);
            Answers(result + FixedAll(offsets) + Fixed(4, |result|) + [BASE_LG], o, Stored(asked), PolicyMatch(p))
  {
    PolicyIsSound(p);
    StoredUserKey(added);
    StoredUserKey(asked);
    FilterNeverHides(PolicyCreate(p), PolicyMatch(p), SameUserKey, filters, offsets, o, Stored(added), Stored(asked));
  }
}
