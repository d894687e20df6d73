/**
  The Redis cache of board snapshots (internal/service/board_service.go): one
  entry per board under the key `board:<id>`, written with a ten-minute expiry.
  A stored value either decodes to a board snapshot or it does not.
 */
module BoardCache {
  import opened Models
  import opened Text

  datatype Payload = Snapshot(view: BoardView) | Undecodable
  datatype Entry = Entry(payload: Payload, ttlSeconds: int)
  type Cache = map<string, Entry>

  const KeyPrefix: string := "board:"
  /** `10*time.Minute`, the expiry of every snapshot the read path writes. */
  const SnapshotTtlSeconds: int := 600

  /** `fmt.Sprintf("board:%d", boardId)`. */
  function CacheKey(boardId: int): (k: string)
    ensures |k| > |KeyPrefix| && k[..|KeyPrefix|] == KeyPrefix
  {
    KeyPrefix + Decimal(boardId)
  }

  /** Two boards never share a cache key. */
  lemma CacheKeyInjective(a: int, b: int)
    ensures CacheKey(a) == CacheKey(b) <==> a == b
  {
    if CacheKey(a) == CacheKey(b) {
      assert Decimal(a) == CacheKey(a)[|KeyPrefix|..];
      assert Decimal(b) == CacheKey(b)[|KeyPrefix|..];
      DecimalInjective(a, b);
    }
  }
}
