/** From a directory tree to the restored records: scan, path prefix, backup and restore. */
module EndToEnd {
  import opened Bytes
  import opened FileRecords
  import opened Scanner
  import opened ScanLaws
  import opened Engine
  import opened Pipeline
  import Metadata
  import HuffmanTree
  import Paths

  /** The list that a backup of a source directory with these entries stores. */
  function Sourced(sourceDir: seq<byte>, f: FilterOption, es: seq<Entry>): seq<FileInfo> {
    Prefixed(BaseName(sourceDir), Scan(f, es))
  }

  lemma {:induction false} SourcedPathsDistinct(sourceDir: seq<byte>, f: FilterOption, es: seq<Entry>)
    requires GoodTree(es)
    ensures DistinctPaths(Sourced(sourceDir, f, es))
  {
    hide Scan, AtOrBelow, Prefixed, BaseName;
    ScanInOrder(f, es);
    OrderedIsDistinct(Scan(f, es));
    PrefixKeepsDistinct(BaseName(sourceDir), Scan(f, es));
  }

  /** A source directory comes back: the metadata list in scan order below the last piece of the source path,
      and every regular file's content under its own path, for tar or index with any compression and any
      encryption with a key; under tar exactly if no longer path takes the place of a file's. */
  lemma {:induction false} ScanBackupRestore(tb: HuffmanTree.TieBreak, p: Packing, c: Compression, e: Encryption,
                                             f: FilterOption, sourceDir: seq<byte>, es: seq<Entry>, password: seq<byte>)
    requires GoodTree(es)
    requires var fs := Sourced(sourceDir, f, es); Admissible(tb, p, c, fs) && Keyed(e, password) && Fits(p, fs) && !p.NoPacking?
    ensures var fs := Sourced(sourceDir, f, es);
            RestoreOf(tb, BackupOf(tb, p, c, e, fs, password), password) == Done(Metadata.StoredAll(fs), Contents(fs)) <==> Preserved(p, fs)
    ensures |Sourced(sourceDir, f, es)| == |Scan(f, es)|
    ensures forall k :: 0 <= k < |Scan(f, es)| ==>
              Paths.Split(Sourced(sourceDir, f, es)[k].relativePath) == TopOf(sourceDir) + Paths.Split(Scan(f, es)[k].relativePath)
  {
    SourcedPathsDistinct(sourceDir, f, es);
    forall k | 0 <= k < |Scan(f, es)|
      ensures Paths.Split(Sourced(sourceDir, f, es)[k].relativePath) == TopOf(sourceDir) + Paths.Split(Scan(f, es)[k].relativePath)
    {
      hide *;
      SourcedPath(sourceDir, f, es, k);
    }
    hide *;
    SourcedLength(sourceDir, f, es);
    BackupThenRestore(tb, p, c, e, Sourced(sourceDir, f, es), password);
  }

  lemma {:induction false} SourcedPath(sourceDir: seq<byte>, f: FilterOption, es: seq<Entry>, k: nat)
    requires k < |Scan(f, es)|
    ensures k < |Sourced(sourceDir, f, es)|
    ensures Paths.Split(Sourced(sourceDir, f, es)[k].relativePath) == TopOf(sourceDir) + Paths.Split(Scan(f, es)[k].relativePath)
  {
    hide Scan, Prefixed, BaseName, TopOf, Paths.Split;
    PrefixedPath(sourceDir, Scan(f, es), k);
  }

  lemma {:induction false} SourcedLength(sourceDir: seq<byte>, f: FilterOption, es: seq<Entry>)
    ensures |Sourced(sourceDir, f, es)| == |Scan(f, es)|
  {
    hide Scan, Prefixed, BaseName;
  }
}
