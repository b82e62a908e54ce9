/** The agent's log collector (agent/infrapulse_agent.py:375-427): a tail over files, with the
    position reached in each. A file's text has one character per byte and "\n" line ends; an
    entry is its message. */
module LogTail {
  import opened Text

  /** A file at one poll: its size when it was asked for, and what was there to read just
      after, if it could be opened. */
  datatype File = File(size: nat, content: string, readable: bool)

  type Positions = map<string, nat>

  const MESSAGE_LIMIT := 2000

  function Before(c: char, lines: seq<string>): (r: seq<string>)
    ensures r != []
  {
    if c == '\n' || lines == [] then [[c]] + lines else [[c] + lines[0]] + lines[1..]
  }

  /** file.readlines() */
  function Lines(s: string): seq<string>
  {
    if s == [] then [] else Before(s[0], Lines(s[1..]))
  }

  /** lines[-batch:], where -0 is the start of the list */
  function LastOf(lines: seq<string>, batch: nat): seq<string>
  {
    if batch == 0 || |lines| <= batch then lines else lines[|lines| - batch..]
  }

  function Messages(lines: seq<string>): seq<string>
  {
    if lines == [] then []
    else
      var line := StripEnd(lines[|lines| - 1]);
      Messages(lines[..|lines| - 1])
      + if line == [] then [] else [if |line| > MESSAGE_LIMIT then line[..MESSAGE_LIMIT] else line]
  }

  /** Where the poll starts reading: a file without a recorded position counts as read to its
      end, a file that has shrunk as new. */
  function Start(positions: Positions, path: string, size: nat): nat
  {
    var last := if path in positions then positions[path] else size;
    if size < last then 0 else last
  }

  function Visit(positions: Positions, path: string, files: map<string, File>, batch: nat): (Positions, seq<string>)
  {
    if path !in files then (positions, [])
    else
      var f := files[path];
      var start := Start(positions, path, f.size);
      if f.size == start || !f.readable then (positions, [])
      else if start <= |f.content| then
        (positions[path := |f.content|], Messages(LastOf(Lines(f.content[start..]), batch)))
      else (positions[path := start], [])
  }

  function Collect(paths: seq<string>, positions: Positions, files: map<string, File>, batch: nat)
    : (Positions, seq<string>)
  {
    if paths == [] then (positions, [])
    else
      var (p, entries) := Collect(paths[..|paths| - 1], positions, files, batch);
      var (q, more) := Visit(p, paths[|paths| - 1], files, batch);
      (q, entries + more)
  }

  class LogCollector {
    const logPaths: seq<string>
    const batchSize: nat
    var filePositions: Positions

    constructor (logPaths: seq<string>, batchSize: nat)
      ensures this.logPaths == logPaths && this.batchSize == batchSize && filePositions == map[]
    {
      this.logPaths := logPaths;
      this.batchSize := batchSize;
      filePositions := map[];
    }

    method CollectNewLines(files: map<string, File>) returns (entries: seq<string>)
      modifies this
      ensures (filePositions, entries) == Collect(logPaths, old(filePositions), files, batchSize)
    {
      hide Visit;
      entries := [];
      for i := 0 to |logPaths|
        invariant (filePositions, entries) == Collect(logPaths[..i], old(filePositions), files, batchSize)
      {
        assert logPaths[..i + 1][..i] == logPaths[..i];
        var batch := CollectPath(logPaths[i], files);
        entries := entries + batch;
      }
      assert logPaths[..|logPaths|] == logPaths;
    }

    /** The body of the loop over paths. */
    method CollectPath(path: string, files: map<string, File>) returns (entries: seq<string>)
      modifies this
      ensures (filePositions, entries) == Visit(old(filePositions), path, files, batchSize)
    {
      entries := [];
      if path !in files { return; }
      var currentSize := files[path].size;
      var lastPos := if path in filePositions then filePositions[path] else currentSize;
      if currentSize < lastPos { lastPos := 0; }
      if currentSize == lastPos || !files[path].readable { return; }
      var newLines: seq<string> := [];
      if lastPos <= |files[path].content| {
        newLines := Lines(files[path].content[lastPos..]);
        filePositions := filePositions[path := |files[path].content|];
      } else {
        filePositions := filePositions[path := lastPos];
      }
      entries := AppendMessages(LastOf(newLines, batchSize));
    }

    method AppendMessages(lines: seq<string>) returns (entries: seq<string>)
      ensures entries == Messages(lines)
    {
      entries := [];
      for i := 0 to |lines|
        invariant entries == Messages(lines[..i])
      {
        assert lines[..i + 1][..i] == lines[..i];
        var line := StripEnd(lines[i]);
        if line == [] { continue; }
        entries := entries + [if |line| > MESSAGE_LIMIT then line[..MESSAGE_LIMIT] else line];
      }
      assert lines[..|lines|] == lines;
    }
  }

  // ---------------------------------------------------------------- a new collector

  /** What the polls return, one after the other. */
  function Polls(paths: seq<string>, positions: Positions, polls: seq<map<string, File>>, batch: nat): seq<seq<string>>
    decreases |polls|
  {
    if polls == [] then []
    else
      var (p, entries) := Collect(paths, positions, polls[0], batch);
      [entries] + Polls(paths, p, polls[1..], batch)
  }

  /** A path without a recorded position does not get one from a poll. */
  lemma {:induction false} UnrecordedStays(paths: seq<string>, positions: Positions, files: map<string, File>,
                                           batch: nat, path: string)
    requires path !in positions
    ensures path !in Collect(paths, positions, files, batch).0
  {
    if paths != [] {
      var last := |paths| - 1;
      UnrecordedStays(paths[..last], positions, files, batch, path);
      var p := Collect(paths[..last], positions, files, batch).0;
      assert path !in Visit(p, paths[last], files, batch).0;
    }
  }

  lemma {:induction false} FirstPollRecordsNothing(paths: seq<string>, files: map<string, File>, batch: nat)
    ensures Collect(paths, map[], files, batch) == (map[], [])
  {
    if paths != [] {
      FirstPollRecordsNothing(paths[..|paths| - 1], files, batch);
      var none: seq<string> := [];
      assert Visit(map[], paths[|paths| - 1], files, batch) == (map[], none) && none + none == none;
    }
  }

  /** The first poll of a file skips it before its position is recorded, and so does every
      other: a new collector never returns a line, whatever happens to the files. */
  lemma {:induction false} NothingIsCollected(paths: seq<string>, polls: seq<map<string, File>>, batch: nat)
    ensures |Polls(paths, map[], polls, batch)| == |polls|
    ensures forall i :: 0 <= i < |polls| ==> Polls(paths, map[], polls, batch)[i] == []
    decreases |polls|
  {
    if polls != [] {
      FirstPollRecordsNothing(paths, polls[0], batch);
      NothingIsCollected(paths, polls[1..], batch);
      var rest := Polls(paths, map[], polls[1..], batch);
      assert Polls(paths, map[], polls, batch) == [[]] + rest;
      forall i | 0 <= i < |polls| ensures Polls(paths, map[], polls, batch)[i] == [] {
        if i > 0 { assert rest[i - 1] == []; }
      }
    }
  }

  // ---------------------------------------------------------------- with a recorded position

  predicate EndsLine(s: string) { s == [] || s[|s| - 1] == '\n' }

  lemma BeforeConcat(c: char, a: seq<string>, b: seq<string>)
    requires c == '\n' || a != []
    ensures Before(c, a + b) == Before(c, a) + b
  {
    if c != '\n' {
      assert (a + b)[0] == a[0] && (a + b)[1..] == a[1..] + b;
    }
  }

  lemma {:induction false} LinesConcat(a: string, b: string)
    requires EndsLine(a)
    ensures Lines(a + b) == Lines(a) + Lines(b)
  {
    hide Before;
    if a == [] {
      assert a + b == b;
      assert [] + Lines(b) == Lines(b);
    } else {
      assert (a + b)[1..] == a[1..] + b && (a + b)[0] == a[0];
      LinesConcat(a[1..], b);
      assert a[0] == '\n' || Lines(a[1..]) != [];
      BeforeConcat(a[0], Lines(a[1..]), Lines(b));
    }
  }

  lemma {:induction false} MessagesConcat(a: seq<string>, b: seq<string>)
    ensures Messages(a + b) == Messages(a) + Messages(b)
  {
    if b == [] {
      assert a + b == a;
    } else {
      var last := |b| - 1;
      assert (a + b)[..|a + b| - 1] == a + b[..last];
      MessagesConcat(a, b[..last]);
    }
  }

  // ---------------------------------------------------------------- one path among many

  predicate NoDuplicates(paths: seq<string>)
  {
    forall i, j :: 0 <= i < j < |paths| ==> paths[i] != paths[j]
  }

  predicate AgreeAt(p: Positions, q: Positions, path: string)
  {
    (path in p <==> path in q) && (path in p ==> p[path] == q[path])
  }

  lemma VisitAt(p: Positions, q: Positions, visited: string, files: map<string, File>, batch: nat, path: string)
    requires AgreeAt(p, q, path)
    ensures path != visited ==> AgreeAt(Visit(p, visited, files, batch).0, p, path)
    ensures path == visited ==>
      AgreeAt(Visit(p, path, files, batch).0, Visit(q, path, files, batch).0, path) &&
      Visit(p, path, files, batch).1 == Visit(q, path, files, batch).1
  {
    hide Lines, Messages, LastOf;
  }

  /** A poll does to the position of a path what visiting that path alone does. */
  lemma {:induction false} CollectAt(paths: seq<string>, positions: Positions, files: map<string, File>,
                                     batch: nat, path: string)
    requires NoDuplicates(paths)
    ensures path !in paths ==> AgreeAt(Collect(paths, positions, files, batch).0, positions, path)
    ensures path in paths ==>
      AgreeAt(Collect(paths, positions, files, batch).0, Visit(positions, path, files, batch).0, path)
  {
    hide Visit;
    if paths != [] {
      var last := |paths| - 1;
      CollectAt(paths[..last], positions, files, batch, path);
      var p := Collect(paths[..last], positions, files, batch).0;
      if path == paths[last] {
        assert path !in paths[..last];
        VisitAt(p, positions, path, files, batch, path);
      } else {
        VisitAt(p, p, paths[last], files, batch, path);
      }
    }
  }

  /** The entries of each path, one path after the other. */
  function Shares(paths: seq<string>, positions: Positions, files: map<string, File>, batch: nat): seq<string>
  {
    if paths == [] then []
    else
      var last := |paths| - 1;
      Shares(paths[..last], positions, files, batch) + Visit(positions, paths[last], files, batch).1
  }

  /** A poll returns the entries of each path in the order of the list, whatever the others
      hold. */
  lemma {:induction false} CollectIsShares(paths: seq<string>, positions: Positions, files: map<string, File>,
                                           batch: nat)
    requires NoDuplicates(paths)
    ensures Collect(paths, positions, files, batch).1 == Shares(paths, positions, files, batch)
  {
    hide Visit;
    if paths != [] {
      var last := |paths| - 1;
      CollectIsShares(paths[..last], positions, files, batch);
      CollectAt(paths[..last], positions, files, batch, paths[last]);
      VisitAt(Collect(paths[..last], positions, files, batch).0, positions, paths[last], files, batch, paths[last]);
    }
  }

  // ---------------------------------------------------------------- what a growing file yields

  /** The entries of one path over several polls of all of them. */
  function TailOf(paths: seq<string>, positions: Positions, polls: seq<map<string, File>>, batch: nat,
                  path: string): seq<string>
    decreases |polls|
  {
    if polls == [] then []
    else
      Visit(positions, path, polls[0], batch).1
      + TailOf(paths, Collect(paths, positions, polls[0], batch).0, polls[1..], batch, path)
  }

  /** The poll reads the file: it is there, can be opened, and its size is not that of `seen`. */
  predicate Reads(path: string, seen: string, files: map<string, File>)
  {
    path in files && files[path].readable && files[path].size != |seen|
  }

  /** The text that has been read after the polls, when `seen` had been read before. */
  function SeenAfter(path: string, seen: string, polls: seq<map<string, File>>): string
    decreases |polls|
  {
    if polls == [] then seen
    else SeenAfter(path, if Reads(path, seen, polls[0]) then polls[0][path].content else seen, polls[1..])
  }

  /** Whenever the file is read it has grown, by whole lines up to the last poll and by at most
      a batch of them. It may be missing or locked at some polls, and may go on growing between
      the size check and the read. */
  ghost predicate Grows(path: string, seen: string, polls: seq<map<string, File>>, batch: nat)
    decreases |polls|
  {
    polls == []
    || (EndsLine(seen)
        && if Reads(path, seen, polls[0]) then
             var content := polls[0][path].content;
             && |seen| < polls[0][path].size && seen <= content
             && (batch == 0 || |Lines(content[|seen|..])| <= batch)
             && Grows(path, content, polls[1..], batch)
           else Grows(path, seen, polls[1..], batch))
  }

  lemma VisitReads(positions: Positions, path: string, seen: string, files: map<string, File>, batch: nat)
    requires path in positions && positions[path] == |seen|
    requires !Reads(path, seen, files) ==> path !in files || !files[path].readable || files[path].size == |seen|
    requires Reads(path, seen, files) ==>
      |seen| < files[path].size && seen <= files[path].content &&
      (batch == 0 || |Lines(files[path].content[|seen|..])| <= batch)
    ensures Visit(positions, path, files, batch) ==
      if Reads(path, seen, files)
      then (positions[path := |files[path].content|], Messages(Lines(files[path].content[|seen|..])))
      else (positions, [])
  {
    hide Lines, Messages;
  }

  lemma JoinParts(before: string, first: string, last: string)
    requires before <= first <= last && EndsLine(before) && EndsLine(first)
    ensures Messages(Lines(last[|before|..]))
         == Messages(Lines(first[|before|..])) + Messages(Lines(last[|first|..]))
  {
    var seen, later := first[|before|..], last[|first|..];
    assert last[|before|..] == seen + later;
    assert EndsLine(seen);
    LinesConcat(seen, later);
    MessagesConcat(Lines(seen), Lines(later));
  }

  lemma NothingNew(seen: string)
    ensures Messages(Lines(seen[|seen|..])) == []
  {
    assert seen[|seen|..] == [];
  }

  /** From a recorded position on, and whatever the other paths of the list do, the polls
      together return every line appended to the file, once and in order. */
  lemma {:induction false} TailKeepsEveryLine(paths: seq<string>, positions: Positions, polls: seq<map<string, File>>,
                                              batch: nat, path: string, seen: string)
    requires NoDuplicates(paths) && path in paths
    requires path in positions && positions[path] == |seen| && Grows(path, seen, polls, batch)
    ensures seen <= SeenAfter(path, seen, polls)
    ensures TailOf(paths, positions, polls, batch, path) == Messages(Lines(SeenAfter(path, seen, polls)[|seen|..]))
    decreases |polls|
  {
    hide Collect, Visit, Lines, Messages;
    if polls == [] {
      NothingNew(seen);
    } else {
      var after := if Reads(path, seen, polls[0]) then polls[0][path].content else seen;
      var next := Collect(paths, positions, polls[0], batch).0;
      VisitReads(positions, path, seen, polls[0], batch);
      CollectAt(paths, positions, polls[0], batch, path);
      TailKeepsEveryLine(paths, next, polls[1..], batch, path, after);
      var all := SeenAfter(path, seen, polls);
      NothingNew(seen);
      if |polls| == 1 {
        NothingNew(after);
      } else {
        JoinParts(seen, after, all);
      }
    }
  }

  // ---------------------------------------------------------------- what the lines of a file become

  /** A line as it was written: its text, and whitespace behind it. */
  datatype Written = Written(text: string, space: string) {
    predicate IsLine() { EndsPlain(text) && AllSpace(space) && '\n' !in text && '\n' !in space }
  }

  function FileOf(lines: seq<Written>): string
  {
    if lines == [] then "" else lines[0].text + lines[0].space + "\n" + FileOf(lines[1..])
  }

  /** The lines that are not blank, without the whitespace behind them and cut at 2000 characters. */
  function EntriesOf(lines: seq<Written>): seq<string>
  {
    if lines == [] then []
    else
      var text := lines[0].text;
      (if text == "" then [] else if |text| <= 2000 then [text] else [text[..2000]]) + EntriesOf(lines[1..])
  }

  lemma {:induction false} LinesOfOne(s: string, rest: string)
    requires '\n' !in s
    ensures Lines(s + "\n" + rest) == [s + "\n"] + Lines(rest)
  {
    if s == "" {
      assert s + "\n" + rest == "\n" + rest && ("\n" + rest)[1..] == rest;
      assert s + "\n" == "\n";
    } else {
      assert s[0] in s;
      var all := s + "\n" + rest;
      assert all[1..] == s[1..] + "\n" + rest && all[0] == s[0];
      LinesOfOne(s[1..], rest);
      var tail := [s[1..] + "\n"] + Lines(rest);
      assert tail[0] == s[1..] + "\n" && tail[1..] == Lines(rest);
      assert [s[0]] + (s[1..] + "\n") == s + "\n";
    }
  }

  lemma MessagesOfOne(line: Written)
    requires line.IsLine()
    ensures Messages([line.text + line.space + "\n"]) == EntriesOf([line])
  {
    var space := line.space + "\n";
    assert line.text + line.space + "\n" == line.text + space;
    assert AllSpace(space);
    StripEndIs(line.text, space);
    assert Messages([]) == [] && EntriesOf([]) == [];
  }

  /** The entries of a text are its lines: without the whitespace at the end, without the blank
      ones, in their order, and each cut at 2000 characters. */
  lemma {:induction false} EntriesAreLines(lines: seq<Written>)
    requires forall l :: l in lines ==> l.IsLine()
    ensures Messages(Lines(FileOf(lines))) == EntriesOf(lines)
  {
    if lines != [] {
      hide Messages, Lines, EntriesOf;
      var first, rest := lines[0], FileOf(lines[1..]);
      assert first in lines;
      EntriesAreLines(lines[1..]);
      FirstEntry(first, rest);
      EntriesSplit(lines);
    }
  }

  lemma EntriesSplit(lines: seq<Written>)
    requires lines != []
    ensures EntriesOf(lines) == EntriesOf([lines[0]]) + EntriesOf(lines[1..])
  {
    assert [lines[0]][1..] == [] && EntriesOf([]) == [];
  }

  lemma FirstEntry(first: Written, rest: string)
    requires first.IsLine()
    ensures Messages(Lines(first.text + first.space + "\n" + rest)) == EntriesOf([first]) + Messages(Lines(rest))
  {
    hide Messages, Lines, EntriesOf;
    LinesOfOne(first.text + first.space, rest);
    MessagesConcat([first.text + first.space + "\n"], Lines(rest));
    MessagesOfOne(first);
  }

  /** So a file that grows by these lines yields these entries. */
  lemma TailReturnsLines(paths: seq<string>, positions: Positions, polls: seq<map<string, File>>, batch: nat,
                         path: string, seen: string, lines: seq<Written>)
    requires NoDuplicates(paths) && path in paths
    requires path in positions && positions[path] == |seen| && Grows(path, seen, polls, batch)
    requires SeenAfter(path, seen, polls) == seen + FileOf(lines) && forall l :: l in lines ==> l.IsLine()
    ensures TailOf(paths, positions, polls, batch, path) == EntriesOf(lines)
  {
    hide TailOf, Grows, SeenAfter, FileOf, Messages, Lines;
    TailKeepsEveryLine(paths, positions, polls, batch, path, seen);
    assert (seen + FileOf(lines))[|seen|..] == FileOf(lines);
    EntriesAreLines(lines);
  }

  lemma {:induction false} LinesOfFile(lines: seq<Written>)
    requires forall l :: l in lines ==> l.IsLine()
    ensures |Lines(FileOf(lines))| == |lines|
    ensures forall k :: 0 <= k <= |lines| ==> Lines(FileOf(lines))[k..] == Lines(FileOf(lines[k..]))
  {
    if lines == [] {
      assert lines[0..] == lines;
    } else {
      var first, rest := lines[0], FileOf(lines[1..]);
      assert first in lines;
      LinesOfFile(lines[1..]);
      LinesOfOne(first.text + first.space, rest);
      hide Lines, FileOf;
      var all := Lines(first.text + first.space + "\n" + rest);
      forall k | 0 <= k <= |lines| ensures all[k..] == Lines(FileOf(lines[k..])) {
        if k == 0 {
          assert lines[0..] == lines && all[0..] == all;
        } else {
          assert lines[1..][k - 1..] == lines[k..] && all[k..] == Lines(rest)[k - 1..];
        }
      }
    }
  }

  /** The last lines of a list, at most `batch` of them unless it is 0. */
  function LastLines(lines: seq<Written>, batch: nat): seq<Written>
  {
    if batch == 0 || batch > |lines| then lines else lines[|lines| - batch..]
  }

  /** A file that can be opened and has grown since its recorded position, or has shrunk and so
      was rotated, yields the last batch of what stands behind that position, or of all of it. */
  lemma VisitReturns(positions: Positions, path: string, files: map<string, File>, batch: nat, lines: seq<Written>)
    requires path in positions && path in files && files[path].readable && files[path].size != positions[path]
    requires forall l :: l in lines ==> l.IsLine()
    requires var f := files[path];
      if f.size < positions[path] then f.size > 0 && f.content == FileOf(lines)
      else positions[path] <= |f.content| && f.content[positions[path]..] == FileOf(lines)
    ensures Visit(positions, path, files, batch) ==
      (positions[path := |files[path].content|], EntriesOf(LastLines(lines, batch)))
  {
    hide Messages, Lines, FileOf, EntriesOf;
    LinesOfFile(lines);
    assert files[path].content[0..] == files[path].content && lines[0..] == lines;
    EntriesAreLines(LastLines(lines, batch));
  }

  /** A file that is missing, empty or cannot be opened, that has no recorded position, or has the
      size of it, yields nothing, and the position stays. */
  lemma VisitSkips(positions: Positions, path: string, files: map<string, File>, batch: nat)
    requires path in files ==>
      || !files[path].readable
      || path !in positions
      || files[path].size == positions[path]
      || files[path].size == 0
    ensures Visit(positions, path, files, batch) == (positions, [])
  {
  }
}
