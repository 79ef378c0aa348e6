/** The indexing node's own records: the block cursor, the deduplicating work
    queue and the decoded arguments of an `add_request` call. */
module NodeTypes {
  import opened Primitives

  /** A dataset and a compressed secret key. Two entries are the same entry exactly
      when both fields are equal (the source derives `PartialEq` and `Hash`). */
  datatype ModelData = ModelData(dataset: string, compressedSecretKey: seq<u8>)

  /** The JSON arguments of the contract's `add_request`, once decoded. */
  datatype RequestArguments = RequestArguments(
    epochs: u32,
    datasetCid: string,
    compressedSk: seq<u8>,
    workers: seq<string>)

  /** The indexer's cursor: the local worker's account and the last block height. */
  class LatestBlockHeight {
    var accountId: AccountId
    var blockHeight: u64

    constructor (accountId: AccountId, blockHeight: u64)
      ensures this.accountId == accountId && this.blockHeight == blockHeight
    {
      this.accountId := accountId;
      this.blockHeight := blockHeight;
    }

    /** `set`: overwrites the height and keeps the account. */
    method Set(blockHeight: u64)
      modifies this
      ensures this.blockHeight == blockHeight
      ensures accountId == old(accountId)
    {
      this.blockHeight := blockHeight;
    }
  }

  /** Jobs waiting for the local worker, deduplicated by content. */
  class RequestQueue {
    var requests: set<ModelData>

    /** `RequestQueue::default()`: empty. */
    constructor ()
      ensures requests == {}
    {
      requests := {};
    }

    /** `add_request`: inserts the item unless an equal one is already queued. */
    method AddRequest(request: ModelData)
      modifies this
      ensures requests == Inserted(old(requests), request)
    {
      requests := requests + {request};
    }
  }

  /** The queue after inserting one item: the item is present afterwards, every
      earlier entry stays, and nothing else appears. */
  function Inserted(queue: set<ModelData>, item: ModelData): (r: set<ModelData>)
    ensures item in r
    ensures forall m :: m in queue ==> m in r
    ensures forall m :: m in r ==> m in queue || m == item
  {
    queue + {item}
  }

  /** Inserting an item that is already queued changes nothing; so inserting the
      same item twice is the same as inserting it once. */
  lemma InsertIsIdempotent(queue: set<ModelData>, item: ModelData)
    ensures item in queue ==> Inserted(queue, item) == queue
    ensures Inserted(Inserted(queue, item), item) == Inserted(queue, item)
  {
  }

  /** One insertion never shrinks the queue and grows it by at most one entry,
      by exactly one when the item is new. */
  lemma InsertGrowsByAtMostOne(queue: set<ModelData>, item: ModelData)
    ensures |queue| <= |Inserted(queue, item)| <= |queue| + 1
    ensures |Inserted(queue, item)| == if item in queue then |queue| else |queue| + 1
  {
    if item in queue {
      assert Inserted(queue, item) == queue;
    } else {
      assert Inserted(queue, item) - {item} == queue;
    }
  }

  /** Entries that differ in the dataset or in the key are distinct entries, so
      the queue keeps both. */
  lemma DifferentEntriesAreBothKept(queue: set<ModelData>, a: ModelData, b: ModelData)
    requires a.dataset != b.dataset || a.compressedSecretKey != b.compressedSecretKey
    ensures |Inserted(Inserted(queue - {a, b}, a), b)| == |queue - {a, b}| + 2
  {
    var rest := queue - {a, b};
    InsertGrowsByAtMostOne(rest, a);
    InsertGrowsByAtMostOne(Inserted(rest, a), b);
  }

  /** The queue after inserting a sequence of items one by one, in order. */
  function InsertedAll(queue: set<ModelData>, items: seq<ModelData>): (r: set<ModelData>)
  {
    if items == [] then queue else Inserted(InsertedAll(queue, items[..|items| - 1]), items[|items| - 1])
  }

  /** Inserting a sequence of items yields the old queue united with the items,
      whatever their order and however often they repeat. */
  lemma {:induction false} InsertedAllIsUnion(queue: set<ModelData>, items: seq<ModelData>)
    ensures InsertedAll(queue, items) == queue + Elements(items)
  {
    if items != [] {
      var init, last := items[..|items| - 1], items[|items| - 1];
      InsertedAllIsUnion(queue, init);
      assert items == init + [last];
      ElementsSnoc(init, last);
    }
  }
}
