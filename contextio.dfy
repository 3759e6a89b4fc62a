/** The context-line rings of ff/contextio.go: the lines before the current
    one (pre-context) and the lines read ahead of it (post-context), each a
    ring of N slots, in front of a line scanner over the file. */
module ContextIO {
  import opened Wrappers
  import opened Util

  /** One slot of a ring. */
  datatype ContextLine = ContextLine(text: string, valid: bool)

  /** addToContextLineIndex: one step around a ring of `n` slots. */
  function AddToContextLineIndex(index: int, delta: int, n: int): (r: int)
    ensures 0 <= index < n && -n <= delta <= n ==> 0 <= r < n
  {
    var i := index + delta;
    if i < 0 then i + n else if i >= n then i - n else i
  }

  /** Within range, the step is addition modulo the ring size. */
  lemma AddToContextLineIndexIsModular(index: int, delta: int, n: int)
    requires 0 <= index < n && -n <= delta <= n
    ensures AddToContextLineIndex(index, delta, n) == (index + delta) % n
  {
    var i := index + delta;
    if i < 0 {
      ModShift(i + n, -1, n);
    } else if i >= n {
      ModShift(i - n, 1, n);
    } else {
      ModShift(i, 0, n);
    }
  }

  /** Adding q rounds of the ring does not change the slot. */
  lemma ModShift(r: int, q: int, n: int)
    requires 0 <= r < n && -1 <= q <= 1
    ensures (r + q * n) % n == r
  {
  }

  /** The slot read for delta -j: j = 1 is the slot last written. */
  function PreSlot(start: int, j: int, n: int): int
  {
    AddToContextLineIndex(start, -j + 1, n)
  }

  /** The slot read for delta +j: j = 1 is the start slot. */
  function PostSlot(start: int, j: int, n: int): int
  {
    AddToContextLineIndex(start, j - 1, n)
  }

  lemma PreSlotShift(s: int, j: int, n: int)
    requires 0 <= s < n && 2 <= j <= n
    ensures PreSlot(AddToContextLineIndex(s, 1, n), j, n) == PreSlot(s, j - 1, n)
    ensures PreSlot(AddToContextLineIndex(s, 1, n), j, n) != AddToContextLineIndex(s, 1, n)
  {
  }

  lemma PostSlotShift(s: int, j: int, n: int)
    requires 0 <= s < n && 1 <= j <= n
    ensures PostSlot(AddToContextLineIndex(s, 1, n), j, n) == if j < n then PostSlot(s, j + 1, n) else s
  {
  }

  lemma PostSlotsDistinct(s: int, j: int, k: int, n: int)
    requires 0 <= s < n && 1 <= j <= n && 1 <= k <= n && j != k
    ensures PostSlot(s, j, n) != PostSlot(s, k, n)
  {
  }

  /** bufio.Scanner over the lines of a file. */
  class Scanner {
    const lines: seq<string>
    var cursor: nat
    var text: string

    constructor(lines: seq<string>)
      ensures this.lines == lines && cursor == 0 && text == ""
    {
      this.lines := lines;
      cursor := 0;
      text := "";
    }

    /** Scan: advance to the next line, if there is one. */
    method Scan() returns (more: bool)
      requires cursor <= |lines|
      modifies this
      ensures more <==> old(cursor) < |lines|
      ensures more ==> cursor == old(cursor) + 1 && text == lines[old(cursor)]
      ensures !more ==> cursor == old(cursor) && text == ""
    {
      if cursor < |lines| {
        text := lines[cursor];
        cursor := cursor + 1;
        more := true;
      } else {
        text := "";
        more := false;
      }
    }
  }

  /** The two rings and the scanner, with the lines read so far. The ghost
      state records what the rings hold: `pushed` the lines pushed as
      pre-context, `ahead` the lines read ahead into the post ring,
      `consumed` the lines handed out, `stream` the lines this file yields,
      and `pending` a scanned line not yet taken. */
  class ContextReader {
    const n: int
    const pre: array<ContextLine>
    const post: array<ContextLine>
    var preStart: int
    var postStart: int
    var scanner: Scanner
    var bytesRead: int
    ghost var pushed: seq<string>
    ghost var ahead: seq<string>
    ghost var consumed: seq<string>
    ghost var stream: seq<string>
    ghost var pending: bool

    ghost predicate RingsValid()
      reads this, pre, post
    {
      n >= 0 && pre.Length == n && post.Length == n && pre != post &&
      (if n == 0 then preStart == 0 && postStart == 0 else 0 <= preStart < n && 0 <= postStart < n)
    }

    /** The pre ring holds the last N pushed lines, newest at delta -1. */
    ghost predicate PreValid()
      reads this, pre, post
      requires RingsValid()
    {
      (forall j :: 1 <= j <= n && j <= |pushed| ==> pre[PreSlot(preStart, j, n)] == ContextLine(pushed[|pushed| - j], true)) &&
      (forall j :: |pushed| < j <= n ==> !pre[PreSlot(preStart, j, n)].valid)
    }

    /** The post ring holds the read-ahead lines from its start slot on. */
    ghost predicate PostValid()
      reads this, pre, post
      requires RingsValid()
    {
      |ahead| <= n &&
      (forall j :: 1 <= j <= |ahead| ==> post[PostSlot(postStart, j, n)] == ContextLine(ahead[j - 1], true)) &&
      (forall j :: |ahead| < j <= n ==> !post[PostSlot(postStart, j, n)].valid)
    }

    /** Lines handed out, the pending line, the read-ahead and the rest of
        the file make up the stream, in order. */
    ghost predicate StreamValid()
      reads this, scanner
    {
      scanner.cursor <= |scanner.lines| &&
      (pending ==> ahead == []) &&
      consumed + (if pending then [scanner.text] else []) + ahead + scanner.lines[scanner.cursor..] == stream
    }

    ghost predicate Valid()
      reads this, pre, post, scanner
    {
      RingsValid() && PreValid() && PostValid() && StreamValid()
    }

    /** setupContextLines and setFileForScanning: both rings empty. */
    constructor(n: int, file: seq<string>)
      requires n >= 0
      ensures Valid() && this.n == n && fresh(pre) && fresh(post) && fresh(scanner)
      ensures pushed == [] && ahead == [] && consumed == [] && stream == file && !pending
      ensures bytesRead == 0
    {
      this.n := n;
      pre := new ContextLine[n](_ => ContextLine("", false));
      post := new ContextLine[n](_ => ContextLine("", false));
      preStart := 0;
      postStart := 0;
      scanner := new Scanner(file);
      bytesRead := 0;
      pushed := [];
      ahead := [];
      consumed := [];
      stream := file;
      pending := false;
      new;
      assert scanner.lines[0..] == file;
    }

    /** setFileForScanning: a new scanner; the rings are kept as they are, so
        lines read ahead from the previous file come first and the pre ring
        still holds the previous file's lines. */
    method SetFileForScanning(file: seq<string>)
      requires Valid()
      modifies this
      ensures Valid() && fresh(scanner) && scanner.lines == file
      ensures stream == old(ahead) + file && consumed == [] && !pending
      ensures pushed == old(pushed) && ahead == old(ahead)
      ensures preStart == old(preStart) && postStart == old(postStart) && bytesRead == old(bytesRead)
    {
      scanner := new Scanner(file);
      consumed := [];
      pending := false;
      stream := ahead + file;
      assert scanner.lines[0..] == file;
    }

    /** setFileForScanning as the program evidently intends it: a new file
        also starts with an empty pre-context ring, so no line of an earlier
        file is shown as context. */
    method SetFileForScanningWithReset(file: seq<string>)
      requires Valid()
      modifies this, pre
      ensures Valid() && fresh(scanner) && scanner.lines == file
      ensures stream == old(ahead) + file && consumed == [] && !pending
      ensures pushed == [] && ahead == old(ahead)
      ensures postStart == old(postStart) && bytesRead == old(bytesRead)
    {
      SetFileForScanning(file);
      ClearPreContextLines();
    }

    /** Marks every pre-context slot invalid. */
    method ClearPreContextLines()
      requires Valid()
      modifies this, pre
      ensures Valid() && pushed == []
      ensures scanner == old(scanner) && preStart == old(preStart) && postStart == old(postStart)
      ensures ahead == old(ahead) && consumed == old(consumed) && stream == old(stream) && pending == old(pending)
      ensures bytesRead == old(bytesRead)
    {
      var i := 0;
      while i < n
        invariant 0 <= i <= n
        invariant forall k :: 0 <= k < i ==> !pre[k].valid
        invariant RingsValid() && PostValid() && StreamValid()
        invariant scanner == old(scanner) && preStart == old(preStart) && postStart == old(postStart)
        invariant ahead == old(ahead) && consumed == old(consumed) && stream == old(stream) && pending == old(pending)
        invariant bytesRead == old(bytesRead)
      {
        pre[i] := pre[i].(valid := false);
        i := i + 1;
      }
      pushed := [];
    }

    /** hasNextLineInFile. */
    method HasNextLineInFile() returns (more: bool)
      requires scanner.cursor <= |scanner.lines|
      modifies this, scanner
      ensures scanner == old(scanner) && scanner.lines == old(scanner.lines)
      ensures more <==> old(scanner.cursor) < |scanner.lines|
      ensures more ==> scanner.cursor == old(scanner.cursor) + 1 && scanner.text == scanner.lines[old(scanner.cursor)]
      ensures !more ==> scanner.cursor == old(scanner.cursor)
      ensures pending == more
      ensures preStart == old(preStart) && postStart == old(postStart) && bytesRead == old(bytesRead)
      ensures pushed == old(pushed) && ahead == old(ahead) && consumed == old(consumed) && stream == old(stream)
    {
      more := scanner.Scan();
      pending := more;
    }

    /** getNextLineFromFile: the scanned line, counted in the bytes read. */
    method GetNextLineFromFile() returns (line: string)
      modifies this
      ensures line == scanner.text && bytesRead == old(bytesRead) + ByteLen(line) && !pending
      ensures scanner == old(scanner) && preStart == old(preStart) && postStart == old(postStart)
      ensures pushed == old(pushed) && ahead == old(ahead) && consumed == old(consumed) && stream == old(stream)
    {
      line := scanner.text;
      bytesRead := bytesRead + ByteLen(line);
      pending := false;
    }

    /** getContextLineByDelta; a delta of 0 or beyond N is a panic. */
    function GetContextLineByDelta(delta: int): (r: Result<ContextLine>)
      reads this, pre, post
      requires RingsValid()
      ensures r.Fail? <==> delta == 0 || delta < -n || delta > n
    {
      if delta < -n || delta > n then Fail("delta out of range: " + Decimal(delta))
      else if delta == 0 then Fail("delta cannot be zero")
      else if delta < 0 then Ok(pre[AddToContextLineIndex(preStart, delta + 1, n)])
      else Ok(post[AddToContextLineIndex(postStart, delta - 1, n)])
    }

    /** The pre ring's own part of RingsValid. */
    ghost predicate PreRing()
      reads this`preStart, pre
    {
      n >= 0 && pre.Length == n && (if n == 0 then preStart == 0 else 0 <= preStart < n)
    }

    /** The post ring's own part of RingsValid. */
    ghost predicate PostRing()
      reads this`postStart, post
    {
      n >= 0 && post.Length == n && (if n == 0 then postStart == 0 else 0 <= postStart < n)
    }

    /** A consistent reader has both rings in shape. */
    lemma Rings()
      requires Valid()
      ensures RingsValid() && PreRing() && PostRing()
    {
    }

    /** The slots for deltas -1, -2, …, -N, in that order. */
    ghost function PreLines(): (r: seq<ContextLine>)
      reads this`preStart, pre
      requires PreRing()
      ensures |r| == n
    {
      var a, s := pre, preStart;
      seq(n, j requires 0 <= j < n && a.Length == n && 0 <= s < n reads a => a[PreSlot(s, j + 1, n)])
    }

    lemma PreLinesByDelta(j: int)
      requires RingsValid() && 0 <= j < n
      ensures GetContextLineByDelta(-j - 1) == Ok(PreLines()[j])
    {
      assert PreLines()[j] == pre[PreSlot(preStart, j + 1, n)];
    }

    /** The slots for deltas +1, +2, …, +N, in that order. */
    ghost function PostLines(): (r: seq<ContextLine>)
      reads this`postStart, post
      requires PostRing()
      ensures |r| == n
    {
      var a, s := post, postStart;
      seq(n, j requires 0 <= j < n && a.Length == n && 0 <= s < n reads a => a[PostSlot(s, j + 1, n)])
    }

    lemma PostLinesByDelta(j: int)
      requires RingsValid() && 0 <= j < n
      ensures GetContextLineByDelta(j + 1) == Ok(PostLines()[j])
    {
      assert PostLines()[j] == post[PostSlot(postStart, j + 1, n)];
    }

    /** Delta -j yields the j-th most recently pushed line, and an invalid
        slot when fewer than j lines were pushed. */
    lemma PreContextByDelta(j: int)
      requires Valid() && 1 <= j <= n
      ensures j <= |pushed| ==> GetContextLineByDelta(-j) == Ok(ContextLine(pushed[|pushed| - j], true))
      ensures j > |pushed| ==> GetContextLineByDelta(-j).Ok? && !GetContextLineByDelta(-j).value.valid
    {
      assert AddToContextLineIndex(preStart, -j + 1, n) == PreSlot(preStart, j, n);
    }

    /** Delta +j yields the j-th line read ahead, and an invalid slot past
        the read-ahead. */
    lemma PostContextByDelta(j: int)
      requires Valid() && 1 <= j <= n
      ensures j <= |ahead| ==> GetContextLineByDelta(j) == Ok(ContextLine(ahead[j - 1], true))
      ensures j > |ahead| ==> GetContextLineByDelta(j).Ok? && !GetContextLineByDelta(j).value.valid
    {
      assert AddToContextLineIndex(postStart, j - 1, n) == PostSlot(postStart, j, n);
    }

    /** The read-ahead is the next part of the stream, right after the lines
        handed out. */
    lemma AheadIsNext()
      requires Valid() && !pending
      ensures |consumed| + |ahead| <= |stream|
      ensures stream[..|consumed|] == consumed
      ensures stream[|consumed|..|consumed| + |ahead|] == ahead
    {
      var rest := scanner.lines[scanner.cursor..];
      assert stream == consumed + ahead + rest;
      assert stream[..|consumed|] == consumed;
      assert stream[|consumed|..|consumed| + |ahead|] == ahead;
    }

    /** The lines handed out are the start of the stream. */
    lemma ConsumedIsPrefix()
      requires Valid()
      ensures |consumed| <= |stream| && stream[..|consumed|] == consumed
    {
      var tail := (if pending then [scanner.text] else []) + ahead + scanner.lines[scanner.cursor..];
      assert stream == consumed + tail;
    }

    /** hasNextLineInFileOrCache: a read-ahead line, or a line scanned from
        the file. */
    method HasNextLineInFileOrCache() returns (more: bool)
      requires Valid() && !pending
      modifies this, scanner
      ensures Valid()
      ensures more <==> |consumed| < |stream|
      ensures !more ==> !pending
      ensures more ==> pending || ahead != []
      ensures pushed == old(pushed) && ahead == old(ahead) && consumed == old(consumed) && stream == old(stream)
      ensures preStart == old(preStart) && postStart == old(postStart) && scanner == old(scanner)
    {
      if n == 0 {
        more := HasNextLineInFile();
        assert old(scanner.lines[scanner.cursor..]) == [scanner.text] + scanner.lines[scanner.cursor..] || !more;
        return;
      }
      if post[postStart].valid {
        assert PostSlot(postStart, 1, n) == postStart;
        return true;
      }
      assert PostSlot(postStart, 1, n) == postStart;
      more := HasNextLineInFile();
      if more {
        assert old(scanner.lines[scanner.cursor..]) == [scanner.text] + scanner.lines[scanner.cursor..];
      }
    }

    /** getNextLineFromFileOrCache: the next line of the stream, taken from
        the post ring when it has one (freeing that slot) and from the
        scanner otherwise. Every line of the stream is handed out once. */
    method GetNextLineFromFileOrCache() returns (line: string)
      requires Valid() && (pending || ahead != [])
      modifies this, post
      ensures Valid() && !pending
      ensures consumed == old(consumed) + [line] && stream == old(stream)
      ensures pushed == old(pushed) && preStart == old(preStart) && scanner == old(scanner)
      ensures old(ahead) != [] ==> ahead == old(ahead)[1..]
      ensures old(ahead) == [] ==> ahead == []
    {
      if n == 0 {
        line := GetNextLineFromFile();
        consumed := consumed + [line];
        return;
      }
      assert PostSlot(postStart, 1, n) == postStart;
      if post[postStart].valid {
        line := TakeFromCache();
        return;
      }
      line := GetNextLineFromFile();
      consumed := consumed + [line];
    }

    /** The read-ahead branch of getNextLineFromFileOrCache: take the start
        slot, free it and advance the start. */
    method TakeFromCache() returns (line: string)
      requires Valid() && n > 0 && ahead != []
      modifies this, post
      ensures Valid() && !pending
      ensures line == old(ahead)[0] && ahead == old(ahead)[1..]
      ensures consumed == old(consumed) + [line] && stream == old(stream)
      ensures pushed == old(pushed) && preStart == old(preStart) && scanner == old(scanner)
    {
      assert PostSlot(postStart, 1, n) == postStart;
      post[postStart] := post[postStart].(valid := false);
      line := post[postStart].text;
      ghost var s := postStart;
      postStart := AddToContextLineIndex(postStart, 1, n);
      consumed := consumed + [line];
      ahead := ahead[1..];
      forall j | 1 <= j <= n
        ensures PostSlot(postStart, j, n) == if j < n then PostSlot(s, j + 1, n) else s
      {
        PostSlotShift(s, j, n);
      }
      forall j | 2 <= j <= n
        ensures PostSlot(s, j, n) != s
      {
        PostSlotsDistinct(s, j, 1, n);
      }
      assert consumed + ahead == old(consumed) + old(ahead);
    }

    /** pushToPreContextLines: the line takes the oldest slot. */
    method PushToPreContextLines(line: string)
      requires Valid()
      modifies this, pre
      ensures Valid()
      ensures pushed == (if n == 0 then old(pushed) else old(pushed) + [line])
      ensures ahead == old(ahead) && consumed == old(consumed) && stream == old(stream) && pending == old(pending)
      ensures postStart == old(postStart) && scanner == old(scanner) && bytesRead == old(bytesRead)
    {
      if n == 0 {
        return;
      }
      ghost var s := preStart;
      preStart := AddToContextLineIndex(preStart, 1, n);
      pre[preStart] := pre[preStart].(valid := true);
      pre[preStart] := pre[preStart].(text := line);
      pushed := pushed + [line];
      forall j | 2 <= j <= n
        ensures PreSlot(preStart, j, n) == PreSlot(s, j - 1, n) && PreSlot(preStart, j, n) != preStart
      {
        PreSlotShift(s, j, n);
      }
      assert PreSlot(preStart, 1, n) == preStart;
    }

    /** fillPostContextLines: read ahead until the post ring is full or the
        file ends. */
    method FillPostContextLines()
      requires Valid() && !pending
      modifies this, post, scanner
      ensures Valid() && !pending
      ensures |ahead| == n || scanner.cursor == |scanner.lines|
      ensures old(ahead) <= ahead
      ensures consumed == old(consumed) && stream == old(stream) && pushed == old(pushed)
      ensures preStart == old(preStart) && postStart == old(postStart) && scanner == old(scanner)
    {
      if n == 0 {
        return;
      }
      var i := postStart;
      ghost var k := 0;
      while true
        invariant 0 <= k < n && k <= |ahead| <= n
        invariant i == PostSlot(postStart, k + 1, n)
        invariant Valid() && !pending
        invariant scanner == old(scanner)
        invariant old(ahead) <= ahead
        invariant consumed == old(consumed) && stream == old(stream) && pushed == old(pushed)
        invariant preStart == old(preStart) && postStart == old(postStart)
        decreases n - k
      {
        if !post[i].valid {
          var filled := ReadAhead(i, k);
          if !filled {
            break;
          }
        }
        assert post[PostSlot(postStart, k + 1, n)].valid;
        i := AddToContextLineIndex(i, 1, n);
        k := k + 1;
        if i == postStart {
          break;
        }
      }
    }

    /** The body of the fill for an empty slot: scan one line into it, or
        report the end of the file. */
    method ReadAhead(i: int, ghost k: int) returns (filled: bool)
      requires Valid() && !pending && 0 <= k < n && k <= |ahead|
      requires i == PostSlot(postStart, k + 1, n) && !post[i].valid
      modifies this, post, scanner
      ensures Valid() && !pending && scanner == old(scanner)
      ensures filled ==> |ahead| == |old(ahead)| + 1 && old(ahead) <= ahead
      ensures !filled ==> ahead == old(ahead) && scanner.cursor == |scanner.lines|
      ensures consumed == old(consumed) && stream == old(stream) && pushed == old(pushed)
      ensures preStart == old(preStart) && postStart == old(postStart)
    {
      var more := HasNextLineInFile();
      if !more {
        pending := false;
        return false;
      }
      ghost var rest := scanner.lines[scanner.cursor..];
      assert scanner.lines[scanner.cursor - 1..] == [scanner.text] + rest;
      var line := GetNextLineFromFile();
      FillSlot(i, line, k);
      return true;
    }

    /** One slot of the fill: the read line joins the read-ahead. */
    method FillSlot(i: int, line: string, ghost k: int)
      requires RingsValid() && PreValid() && !pending
      requires 0 <= k < n && i == PostSlot(postStart, k + 1, n) && |ahead| == k
      requires (forall j :: 1 <= j <= |ahead| ==> post[PostSlot(postStart, j, n)] == ContextLine(ahead[j - 1], true))
      requires (forall j :: |ahead| < j <= n ==> !post[PostSlot(postStart, j, n)].valid)
      modifies this, post
      ensures RingsValid() && PreValid() && PostValid() && !pending
      ensures ahead == old(ahead) + [line]
      ensures consumed == old(consumed) && stream == old(stream) && pushed == old(pushed)
      ensures preStart == old(preStart) && postStart == old(postStart) && scanner == old(scanner)
    {
      post[i] := post[i].(text := line);
      post[i] := post[i].(valid := true);
      ahead := ahead + [line];
      forall j | 1 <= j <= n && j != k + 1
        ensures PostSlot(postStart, j, n) != i
      {
        PostSlotsDistinct(postStart, j, k + 1, n);
      }
    }
  }
  /** The pre ring survives a file switch: with one context line, the scan
      of a first file "w", "x" pushes "w" before reading "x" (its last line,
      which is never pushed), and the next file's first line still finds "w"
      at delta -1, so it is shown as the line before line 1 of the new file. */
  method PreContextAfterFileSwitch() returns (r: Result<ContextLine>)
    ensures r == Ok(ContextLine("w", true))
  {
    var reader := new ContextReader(1, ["w", "x"]);
    var more := reader.HasNextLineInFileOrCache();
    var line := reader.GetNextLineFromFileOrCache();
    reader.ConsumedIsPrefix();
    more := reader.HasNextLineInFileOrCache();
    reader.PushToPreContextLines(line);
    line := reader.GetNextLineFromFileOrCache();
    more := reader.HasNextLineInFileOrCache();
    reader.SetFileForScanning(["m"]);
    reader.PreContextByDelta(1);
    r := reader.GetContextLineByDelta(-1);
  }

  /** With the reset, the same steps leave nothing at delta -1. */
  method PreContextAfterFileSwitchWithReset() returns (r: Result<ContextLine>)
    ensures r.Ok? && !r.value.valid
  {
    var reader := new ContextReader(1, ["w", "x"]);
    var more := reader.HasNextLineInFileOrCache();
    var line := reader.GetNextLineFromFileOrCache();
    reader.ConsumedIsPrefix();
    more := reader.HasNextLineInFileOrCache();
    reader.PushToPreContextLines(line);
    line := reader.GetNextLineFromFileOrCache();
    more := reader.HasNextLineInFileOrCache();
    reader.SetFileForScanningWithReset(["m"]);
    reader.PreContextByDelta(1);
    r := reader.GetContextLineByDelta(-1);
  }
}
