/**
 Archive members, which archive-relative paths the writers and readers accept, and the order in which
 members are packed.
 */
module ArchivePath {
  import opened Prelude
  import opened Strings
  import opened Ordering

  /** One archive member. */
  datatype Entry = Entry(path: Text, data: Bytes, mode: nat)

  predicate SafeSegment(segment: Text) {
    segment != [] && segment != [DOT] && segment != [DOT, DOT] && COLON !in segment
  }

  /** `safeRelativePath` returns the path rather than throwing. */
  predicate Safe(path: Text) {
    && path != [] && NUL !in path && BACKSLASH !in path && path[0] != SLASH
    && forall i :: 0 <= i < |Split(path, SLASH)| ==> SafeSegment(Split(path, SLASH)[i])
  }

  /** A name that a member may have in its path. */
  ghost predicate PlainName(part: Text) {
    && part != [] && part != [0x2e] && part != [0x2e, 0x2e]
    && forall u :: u in part ==> u !in {0x00, 0x2f, 0x3a, 0x5c}
  }

  /** The safe paths are exactly the plain names joined with slashes. */
  lemma SafeIsPlainNames(path: Text)
    ensures Safe(path) <==>
            exists parts :: && parts != [] && Join(parts, 0x2f) == path
                            && forall k :: 0 <= k < |parts| ==> PlainName(parts[k])
  {
    var parts := Split(path, SLASH);
    SegmentsArePlain(path, SLASH);
    JoinSplit(path, SLASH);
    if Safe(path) {
      forall k | 0 <= k < |parts| ensures PlainName(parts[k]) {
        assert SafeSegment(parts[k]);
        forall u | u in parts[k] ensures u in path {
          InSplit(path, SLASH, k, u);
        }
      }
    }
    if exists ps :: ps != [] && Join(ps, 0x2f) == path && forall k :: 0 <= k < |ps| ==> PlainName(ps[k]) {
      var ps :| ps != [] && Join(ps, 0x2f) == path && forall k :: 0 <= k < |ps| ==> PlainName(ps[k]);
      SplitJoin(ps, SLASH);
      assert ps == parts && PlainName(parts[0]);
      forall u | u in path ensures u != NUL && u != BACKSLASH {
        InJoin(ps, SLASH, u);
      }
      FirstOfPath(path);
    }
  }

  lemma FirstOfPath(path: Text)
    requires Split(path, SLASH)[0] != []
    ensures path != [] && path[0] != SLASH
  {
  }

  /** A safe path never ends in a separator, so it never reads as a directory entry. */
  lemma SafeIsNotDirectory(path: Text)
    requires Safe(path)
    ensures path[|path| - 1] != SLASH
  {
    var parts := Split(path, SLASH);
    assert SafeSegment(parts[|parts| - 1]);
    if path[|path| - 1] == SLASH {
      SplitLast(path, SLASH);
    }
  }

  function PathOf(e: Entry): Text {
    e.path
  }

  /** `sortByPath`. */
  function ByPath(es: seq<Entry>): seq<Entry> {
    SortBy(PathOf, es)
  }
}
