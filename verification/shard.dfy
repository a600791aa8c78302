/**
 * `get_file_path`: a URL is mapped to one of 500 shard directories by its
 * hash, and every page of a shard is stored under the same base name.
 */
module Shard {
  import opened Text

  /** Number of shard directories (`DIVISIONS`). */
  const Divisions: nat := 500

  /** The file-name prefix (`file_prefix`). */
  const FilePrefix: string := "kuing"

  /**
   * `hash(url) % DIVISIONS`. Python's `%` with a positive divisor takes the
   * sign of the divisor, so a negative hash still gives a shard in range
   * (`-1 % 500 == 499`); Dafny's `%` agrees with it for a positive divisor.
   */
  function ShardId(h: int): (id: nat)
    ensures id < Divisions
    ensures (h - id) % Divisions == 0
  {
    h % Divisions
  }

  /** The shard's directory, `f"./tmp/{file_id}"`. */
  function ShardDir(id: nat): string
  {
    "./tmp/" + Decimal(id)
  }

  /** `os.path.join(directory, file_prefix) + str(file_id)`: a file inside the shard's directory. */
  function ShardPath(id: nat): (p: string)
    ensures Dirname(p) == ShardDir(id)
  {
    assert '/' !in FilePrefix + Decimal(id) by {
      assert forall k :: 0 <= k < |Decimal(id)| ==> (FilePrefix + Decimal(id))[5 + k] == Decimal(id)[k];
    }
    DirnameOfChild(ShardDir(id), FilePrefix + Decimal(id));
    assert ShardDir(id) + "/" + FilePrefix + Decimal(id) == ShardDir(id) + "/" + (FilePrefix + Decimal(id));
    ShardDir(id) + "/" + FilePrefix + Decimal(id)
  }

  /**
   * `get_file_path(url)`, with Python's salted `hash` passed in. The
   * directory that `process_page` creates for the result is the shard's.
   */
  function FilePath(url: string, hash: string -> int): (p: string)
    ensures Dirname(p) == ShardDir(ShardId(hash(url)))
  {
    ShardPath(ShardId(hash(url)))
  }

  /** Two shards share a path only if they are the same shard. */
  lemma ShardPathInjective(a: nat, b: nat)
    ensures ShardPath(a) == ShardPath(b) <==> a == b
  {
    var da, db := Decimal(a), Decimal(b);
    var p := ShardPath(a);
    if p == ShardPath(b) && |da| == |db| {
      assert p[6..6 + |da|] == da;
      assert ShardPath(b)[6..6 + |db|] == db;
      DecimalInjective(a, b);
    }
  }

  /**
   * Two URLs get the same file path exactly when their hashes fall in the
   * same shard: all pages of a shard are written to one and the same file.
   */
  lemma SamePathIffSameShard(u1: string, u2: string, hash: string -> int)
    ensures FilePath(u1, hash) == FilePath(u2, hash) <==> ShardId(hash(u1)) == ShardId(hash(u2))
  {
    ShardPathInjective(ShardId(hash(u1)), ShardId(hash(u2)));
  }
}
