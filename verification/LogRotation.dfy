/** Size-triggered log rotation (src/logger_impl.cpp) over an abstract directory. */
module LogRotation {

  type Bytes = seq<nat>

  /** The log file itself, and the numbered files beside it. */
  datatype Name = Current | Backup(i: nat)

  type Files = map<Name, Bytes>

  function Get(files: Files, name: Name): Bytes {
    if name in files then files[name] else []
  }

  /** rename(2): replaces the target; without a source nothing happens. */
  function Move(files: Files, src: Name, dst: Name): Files {
    if src in files && src != dst then (files - {src})[dst := files[src]] else files
  }

  /** Backups n down to 1, oldest first, then the current file. */
  function History(files: Files, n: nat): Bytes {
    if n == 0 then Get(files, Current) else Get(files, Backup(n)) + History(files, n - 1)
  }

  predicate Suffix(a: Bytes, b: Bytes) {
    |a| <= |b| && b[|b| - |a|..] == a
  }

  lemma SuffixTransitive(a: Bytes, b: Bytes, c: Bytes)
    requires Suffix(a, b) && Suffix(b, c)
    ensures Suffix(a, c)
  {
    assert a == b[|b| - |a|..] == c[|c| - |b|..][|b| - |a|..] == c[|c| - |a|..];
  }

  lemma SuffixExtend(a: Bytes, b: Bytes, x: Bytes)
    requires Suffix(a, b)
    ensures Suffix(a + x, b + x)
  {
  }

  /** Same files in the given places. */
  predicate Agree(f: Files, x: Name, g: Files, y: Name) {
    (x in f <==> y in g) && (x in f ==> f[x] == g[y])
  }

  /** Backup i is what stood one place lower before; below backup 1 comes the current file. */
  predicate MovedUp(before: Files, after: Files, i: nat) {
    Agree(after, Backup(i), before, if i <= 1 then Current else Backup(i - 1))
  }

  /** Up to place k every file has moved up by one. */
  ghost predicate Shifted(before: Files, after: Files, k: nat) {
    && Current !in after
    && forall i: nat :: 1 <= i <= k ==> MovedUp(before, after, i)
  }

  /** The outcome of a rotation: all n places shifted. Only when max_file_num is 0 is the file in
      the top place not removed first, and it stays if nothing moves onto it. */
  ghost predicate Rotation(before: Files, after: Files, n: nat, keepsTop: bool) {
    if keepsTop && n > 1 && Backup(n - 1) !in before
    then Shifted(before, after, n - 1) && Agree(after, Backup(n), before, Backup(n))
    else Shifted(before, after, n)
  }

  /** What a rotation does outside the n places: files above stay, and backup 0 is removed when it
      is the one named by max_file_num. */
  ghost predicate OutsideKept(before: Files, after: Files, n: nat, dropsZero: bool) {
    && (forall i: nat :: i > n ==> Agree(after, Backup(i), before, Backup(i)))
    && (if dropsZero then Backup(0) !in after else Agree(after, Backup(0), before, Backup(0)))
  }

  /** What a rotation leaves of the history: everything when the top file is kept, else all but the
      oldest backup. */
  function Surviving(before: Files, n: nat, keepsTop: bool): Bytes
    requires n > 0
  {
    if keepsTop && n > 1 && Backup(n - 1) !in before then History(before, n) else History(before, n - 1)
  }

  /** A file moved up by one touches neither backup 0 nor anything above the top place. */
  lemma MoveInside(before: Files, files: Files, n: nat, dropsZero: bool, src: Name, dst: nat)
    requires OutsideKept(before, files, n, dropsZero) && 1 <= dst <= n
    requires src == if dst == 1 then Current else Backup(dst - 1)
    ensures OutsideKept(before, Move(files, src, Backup(dst)), n, dropsZero)
  {
    forall i: nat | i > n
      ensures Agree(Move(files, src, Backup(dst)), Backup(i), before, Backup(i))
    {
      assert Agree(files, Backup(i), before, Backup(i));
    }
  }

  /** In the middle of Rename: places up to i are as they were, place i + 1 is empty unless it is
      the top place before anything moved, and everything above has moved up. */
  ghost predicate Renaming(before: Files, files: Files, n: nat, keepsTop: bool, i: nat) {
    && Current in before && i < n && OutsideKept(before, files, n, keepsTop)
    && Agree(files, Current, before, Current)
    && (forall k: nat :: 0 < k <= i ==> Agree(files, Backup(k), before, Backup(k)))
    && (i < n - 1 ==> Backup(i + 1) !in files)
    && (forall k: nat :: i + 1 < k < n ==> MovedUp(before, files, k))
    && TopPlace(before, files, n, keepsTop, i < n - 1)
  }

  predicate TopPlace(before: Files, files: Files, n: nat, keepsTop: bool, reached: bool)
    requires n > 0
  {
    if keepsTop && (!reached || Backup(n - 1) !in before) then Agree(files, Backup(n), before, Backup(n))
    else if reached then MovedUp(before, files, n)
    else Backup(n) !in files
  }

  lemma RenamingStep(before: Files, files: Files, n: nat, keepsTop: bool, i: nat)
    requires Renaming(before, files, n, keepsTop, i) && i >= 1
    ensures Renaming(before, Move(files, Backup(i), Backup(i + 1)), n, keepsTop, i - 1)
  {
    var files' := Move(files, Backup(i), Backup(i + 1));
    MoveInside(before, files, n, keepsTop, Backup(i), i + 1);
    assert Agree(files, Backup(i), before, Backup(i));
    forall k: nat | i < k < n
      ensures MovedUp(before, files', k)
    {
      assert k > i + 1 ==> MovedUp(before, files, k);
    }
  }

  lemma RenamingEnd(before: Files, files: Files, n: nat, keepsTop: bool)
    requires Renaming(before, files, n, keepsTop, 0)
    ensures Rotation(before, Move(files, Current, Backup(1)), n, keepsTop)
    ensures OutsideKept(before, Move(files, Current, Backup(1)), n, keepsTop)
  {
    var files' := Move(files, Current, Backup(1));
    MoveInside(before, files, n, keepsTop, Current, 1);
    forall k: nat | 1 <= k < n
      ensures MovedUp(before, files', k)
    {
      assert k > 1 ==> MovedUp(before, files, k);
    }
  }

  lemma {:induction false} HistoryShift(before: Files, after: Files, k: nat)
    requires k > 0 && Shifted(before, after, k)
    ensures History(after, k) == History(before, k - 1)
  {
    assert MovedUp(before, after, k);
    if k > 1 {
      HistoryShift(before, after, k - 1);
    } else {
      assert History(after, 0) == [];
    }
  }

  /** A rotation loses nothing but the oldest backup, and not even that exactly when max_file_num is
      0 and there is no file below the top place. */
  lemma RotationLosesOldest(before: Files, after: Files, n: nat, keepsTop: bool)
    requires n > 0 && Rotation(before, after, n, keepsTop)
    ensures History(after, n) == Surviving(before, n, keepsTop)
    ensures Suffix(History(after, n), History(before, n)) && Current !in after
  {
    if keepsTop && n > 1 && Backup(n - 1) !in before {
      assert History(after, n - 1) == History(before, n - 2) by { HistoryShift(before, after, n - 1); }
      assert History(before, n - 1) == History(before, n - 2) by { assert Get(before, Backup(n - 1)) == []; }
      assert Get(after, Backup(n)) == Get(before, Backup(n));
    } else {
      assert History(after, n) == History(before, n - 1) by { HistoryShift(before, after, n); }
      assert History(before, n) == Get(before, Backup(n)) + History(before, n - 1);
    }
  }

  /** An empty current file reads like a missing one. */
  lemma {:induction false} HistorySame(f: Files, g: Files, n: nat)
    requires Get(g, Current) == Get(f, Current)
    requires forall i: nat :: 1 <= i <= n ==> Agree(g, Backup(i), f, Backup(i))
    ensures History(g, n) == History(f, n)
  {
    if n == 0 {
    } else {
      HistorySame(f, g, n - 1);
    }
  }

  /** A rotation followed by opening a new current file. */
  lemma RotateAndOpen(before: Files, after: Files, n: nat, keepsTop: bool, total: Bytes)
    requires n > 0 && Rotation(before, after, n, keepsTop) && Suffix(History(before, n), total)
    ensures Suffix(History(after[Current := []], n), total)
    ensures History(after[Current := []], n) == Surviving(before, n, keepsTop)
  {
    assert Current !in after by { RotationLosesOldest(before, after, n, keepsTop); }
    assert History(after[Current := []], n) == History(after, n) by {
      HistorySame(after, after[Current := []], n);
    }
    assert Suffix(History(after, n), total) by {
      RotationLosesOldest(before, after, n, keepsTop);
      SuffixTransitive(History(after, n), History(before, n), total);
    }
    assert History(after, n) == Surviving(before, n, keepsTop) by {
      RotationLosesOldest(before, after, n, keepsTop);
    }
  }

  lemma {:induction false} HistoryAppend(files: Files, data: Bytes, n: nat)
    requires Current in files
    ensures History(files[Current := files[Current] + data], n) == History(files, n) + data
  {
    var files' := files[Current := files[Current] + data];
    if n == 0 {
    } else {
      assert History(files', n - 1) == History(files, n - 1) + data by { HistoryAppend(files, data, n - 1); }
      assert Get(files', Backup(n)) == Get(files, Backup(n));
      assert History(files, n) + data == Get(files, Backup(n)) + (History(files, n - 1) + data);
    }
  }

  function Concat(xs: seq<Bytes>): Bytes {
    if xs == [] then [] else Concat(xs[..|xs| - 1]) + xs[|xs| - 1]
  }

  // ------------------------------------------------- what each file holds

  /** Where in the log the files begin: the last cut begins the current file, the one before it backup
      1, and so on, for the n backups there can be. */
  ghost predicate CutAt(files: Files, total: Bytes, cuts: seq<nat>, n: nat) {
    && cuts != [] && (forall i :: 0 <= i < |cuts| ==> cuts[i] <= |total|)
    && (forall i, j :: 0 <= i <= j < |cuts| ==> cuts[i] <= cuts[j])
    && Current in files && files[Current] == total[cuts[|cuts| - 1]..]
    && forall j: nat :: 1 <= j <= n && j < |cuts| ==> Piece(files, total, cuts, j)
  }

  predicate Piece(files: Files, total: Bytes, cuts: seq<nat>, j: nat)
    requires 1 <= j < |cuts|
  {
    var a, b := cuts[|cuts| - 1 - j], cuts[|cuts| - j];
    Backup(j) in files && a <= b <= |total| && files[Backup(j)] == total[a..b]
  }

  /** The backups and the current file hold the log from the cut on that begins the oldest of them. */
  lemma {:induction false} HistoryFrom(files: Files, total: Bytes, cuts: seq<nat>, n: nat, j: nat)
    requires CutAt(files, total, cuts, n) && j <= n && j < |cuts|
    ensures History(files, j) == total[cuts[|cuts| - 1 - j]..]
  {
    if j == 0 {
    } else {
      var a, b := cuts[|cuts| - 1 - j], cuts[|cuts| - j];
      assert History(files, j - 1) == total[b..] by { HistoryFrom(files, total, cuts, n, j - 1); }
      assert Get(files, Backup(j)) == total[a..b] by { assert Piece(files, total, cuts, j); }
      assert total[a..] == total[a..b] + total[b..];
    }
  }

  /** The place in the log from which everything is kept: the n-th rotation from the end, or the
      beginning of the first current file. */
  function KeptFrom(cuts: seq<nat>, n: nat): nat
    requires cuts != []
  {
    if n < |cuts| then cuts[|cuts| - 1 - n] else cuts[0]
  }

  lemma {:induction false} HistoryGrows(files: Files, j: nat, n: nat)
    requires j <= n
    ensures Suffix(History(files, j), History(files, n))
  {
    if j == n {
    } else {
      HistoryGrows(files, j, n - 1);
      SuffixTransitive(History(files, j), History(files, n - 1), History(files, n));
    }
  }

  /** Nothing behind that place is ever lost, and with enough rotations that is all there is. */
  lemma KeepsSince(files: Files, total: Bytes, cuts: seq<nat>, n: nat)
    requires CutAt(files, total, cuts, n)
    ensures KeptFrom(cuts, n) <= |total| && Suffix(total[KeptFrom(cuts, n)..], History(files, n))
    ensures n < |cuts| ==> History(files, n) == total[KeptFrom(cuts, n)..]
  {
    var j := if n < |cuts| then n else |cuts| - 1;
    HistoryFrom(files, total, cuts, n, j);
    HistoryGrows(files, j, n);
  }

  lemma CutAppend(files: Files, total: Bytes, cuts: seq<nat>, n: nat, data: Bytes)
    requires CutAt(files, total, cuts, n)
    ensures CutAt(files[Current := files[Current] + data], total + data, cuts, n)
  {
    var files', total' := files[Current := files[Current] + data], total + data;
    forall j: nat | 1 <= j <= n && j < |cuts|
      ensures Piece(files', total', cuts, j)
    {
      assert Piece(files, total, cuts, j);
      var a, b := cuts[|cuts| - 1 - j], cuts[|cuts| - j];
      assert total'[a..b] == total[a..b];
    }
  }

  /** A rotation begins a new current file at the end of the log. */
  lemma CutRotate(before: Files, after: Files, total: Bytes, cuts: seq<nat>, n: nat, keepsTop: bool)
    requires n > 0 && CutAt(before, total, cuts, n) && Rotation(before, after, n, keepsTop)
    ensures CutAt(after[Current := []], total, cuts + [|total|], n)
  {
    var files', cuts' := after[Current := []], cuts + [|total|];
    forall j: nat | 1 <= j <= n && j < |cuts'|
      ensures Piece(files', total, cuts', j)
    {
      if j > 1 { assert Piece(before, total, cuts, j - 1); }
      assert MovedUp(before, after, j);
    }
  }

  /** The cuts after a run of writes: one wherever a write makes the current file reach the limit. */
  function CutsAfter(cuts: seq<nat>, at: nat, datas: seq<Bytes>, max: nat): (r: seq<nat>)
    requires cuts != []
    ensures r != []
  {
    if datas == [] then cuts
    else
      var before, end := CutsAfter(cuts, at, datas[..|datas| - 1], max), at + |Concat(datas)|;
      if end - before[|before| - 1] >= max then before + [end] else before
  }

  lemma NextCut(cuts: seq<nat>, start: Bytes, datas: seq<Bytes>, i: nat, max: nat)
    requires cuts != [] && i < |datas|
    ensures start + Concat(datas[..i + 1]) == start + Concat(datas[..i]) + datas[i]
    ensures var before, end := CutsAfter(cuts, |start|, datas[..i], max), |start + Concat(datas[..i]) + datas[i]|;
            CutsAfter(cuts, |start|, datas[..i + 1], max) ==
            if end - before[|before| - 1] >= max then before + [end] else before
  {
    assert datas[..i + 1][..i] == datas[..i];
    assert start + (Concat(datas[..i]) + datas[i]) == start + Concat(datas[..i]) + datas[i];
  }

  class LoggerImpl {
    const max_file_size: nat
    const max_file_num: nat      // 16 bits
    var files: Files
    var m_filesize: nat
    ghost var total: Bytes       // what the log held at the start and everything written since
    ghost var cuts: seq<nat>     // where in total the current file began, each time

    /** The highest backup number in use. The loop counter has 16 bits, so a
        max_file_num of 0 wraps round to 65536 backups. */
    function Top(): (n: nat)
      ensures n > 0
      ensures 1 <= max_file_num <= 65535 ==> n == max_file_num
    {
      (max_file_num + 65535) % 65536 + 1
    }

    ghost predicate Valid()
      reads this
    {
      && max_file_num <= 65535
      && Current in files && m_filesize == |files[Current]|
      && Suffix(History(files, Top()), total) && CutAt(files, total, cuts, Top())
    }

    constructor Start(dir: Files, size: nat, num: nat)
      requires num <= 65535
      ensures Valid() && max_file_size == size && max_file_num == num
      ensures total == History(dir, Top()) && cuts == [|total| - |Get(dir, Current)|]
      ensures files == if Current in dir then dir else dir[Current := []]
    {
      max_file_size, max_file_num := size, num;
      files := if Current in dir then dir else dir[Current := []];
      new;
      m_filesize := |files[Current]|;
      total := History(dir, Top());
      HistorySame(dir, files, Top());
      HistoryGrows(dir, 0, Top());
      cuts := [|total| - |Get(dir, Current)|];
    }

    method Rename()
      requires max_file_num <= 65535 && Current in files
      modifies this`files
      ensures Rotation(old(files), files, Top(), max_file_num == 0)
      ensures OutsideKept(old(files), files, Top(), max_file_num == 0)
    {
      ghost var n, z := Top(), max_file_num == 0;
      files := files - {Backup(max_file_num)};
      var i: nat := (max_file_num + 65535) % 65536;
      assert Renaming(old(files), files, n, z, i);
      while i >= 1
        invariant 0 <= i < n && Renaming(old(files), files, n, z, i)
      {
        RenamingStep(old(files), files, n, z, i);
        files := Move(files, Backup(i), Backup(i + 1));
        i := i - 1;
      }
      RenamingEnd(old(files), files, n, z);
      files := Move(files, Current, Backup(1));
    }

    method Reopen()
      requires Valid()
      modifies this
      ensures Valid() && total == old(total) && cuts == old(cuts) + [|total|]
      ensures m_filesize == 0 && files[Current] == []
      ensures History(files, Top()) == Surviving(old(files), Top(), max_file_num == 0)
      ensures OutsideKept(old(files), files, Top(), max_file_num == 0)
    {
      Rename();
      ghost var renamed := files;
      m_filesize := 0;
      files := files[Current := []];
      assert CutAt(files, total, cuts + [|total|], Top()) by {
        CutRotate(old(files), renamed, total, cuts, Top(), max_file_num == 0);
      }
      cuts := cuts + [|total|];
      assert Suffix(History(files, Top()), total) by {
        RotateAndOpen(old(files), renamed, Top(), max_file_num == 0, total);
      }
      assert History(files, Top()) == Surviving(old(files), Top(), max_file_num == 0) by {
        RotateAndOpen(old(files), renamed, Top(), max_file_num == 0, total);
      }
    }

    /** Appends, and rotates exactly when the current file has reached its limit. */
    method Write(data: Bytes)
      requires Valid()
      modifies this
      ensures Valid() && total == old(total) + data
      ensures var appended := old(files)[Current := old(files[Current]) + data];
              if old(m_filesize) + |data| < max_file_size
              then files == appended && cuts == old(cuts)
              else && files[Current] == [] && cuts == old(cuts) + [|total|]
                   && History(files, Top()) == Surviving(appended, Top(), max_file_num == 0)
                   && OutsideKept(appended, files, Top(), max_file_num == 0)
    {
      HistoryAppend(files, data, Top());
      SuffixExtend(History(files, Top()), total, data);
      CutAppend(files, total, cuts, Top(), data);
      files := files[Current := files[Current] + data];
      total := total + data;
      m_filesize := m_filesize + |data|;
      if m_filesize >= max_file_size {
        Reopen();
      }
    }

    /** Over any run of writes the files, oldest backup first, hold a suffix of the whole log, the
        size counter is the length of the current file, and rotations come exactly where a write
        reaches the limit. Everything since the rotation that began the oldest backup is kept, and
        with more rotations than backups nothing else. */
    method WriteAll(datas: seq<Bytes>)
      requires Valid()
      modifies this
      ensures Valid() && total == old(total) + Concat(datas)
      ensures Suffix(History(files, Top()), old(total) + Concat(datas))
      ensures Current in files && m_filesize == |files[Current]|
      ensures cuts == CutsAfter(old(cuts), old(|total|), datas, max_file_size)
      ensures KeptFrom(cuts, Top()) <= |total| && Suffix(total[KeptFrom(cuts, Top())..], History(files, Top()))
      ensures Top() < |cuts| ==> History(files, Top()) == total[KeptFrom(cuts, Top())..]
    {
      for i := 0 to |datas|
        invariant Valid() && total == old(total) + Concat(datas[..i])
        invariant cuts == CutsAfter(old(cuts), old(|total|), datas[..i], max_file_size)
      {
        NextCut(old(cuts), old(total), datas, i, max_file_size);
        assert |total| + |datas[i]| - cuts[|cuts| - 1] == m_filesize + |datas[i]|;
        Write(datas[i]);
      }
      assert datas[..|datas|] == datas;
      KeepsSince(files, total, cuts, Top());
    }
  }

  /** With max_file_num 0 a directory in which the top file outlives a rotation. */
  method TopFileKept() returns (files: Files)
    ensures Backup(65536) in files && files[Backup(65536)] == [1]
    ensures Backup(1) in files && files[Backup(1)] == [2] && Current !in files
  {
    ghost var before: Files := map[Backup(65536) := [1], Current := [2]];
    var logger := new LoggerImpl.Start(map[Backup(65536) := [1], Current := [2]], 1, 0);
    logger.Rename();
    files := logger.files;
    assert MovedUp(before, files, 1);
  }
}
