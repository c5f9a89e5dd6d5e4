/** The upgrade list (`list.txt`: one "hash file-name" pair per line) and
    the writer that counts downloaded bytes. */
module UpgradeList {
  import opened Wrappers
  import opened Text
  import Bytes

  // ---------------------------------------------------------------------
  // The upgrade list

  /** How one line of the list reads: blank, a file name with its hash, or
      malformed (text without a space), reported trimmed. */
  datatype Line = Blank | Entry(filename: string, hash: string) | Malformed(line: string)

  datatype ListError = InvalidLine(line: string)

  /** One line: trimmed, split at its first space, both halves trimmed. */
  function ParseLine(line: string): (r: Line)
    ensures r.Blank? <==> TrimSpace(line) == ""
    ensures r.Malformed? <==> TrimSpace(line) != "" && ' ' !in TrimSpace(line)
    ensures r.Malformed? ==> r.line == TrimSpace(line)
    ensures r.Entry? <==> ' ' in TrimSpace(line)
    ensures r.Entry? ==> ' ' !in r.hash
    ensures r.Entry? ==>
      exists h, f :: ' ' !in h && TrimSpace(line) == h + [' '] + f
        && r.hash == TrimSpace(h) && r.filename == TrimSpace(f)
  {
    var trimmed := TrimSpace(line);
    if trimmed == "" then Blank
    else
      var parts := SplitFirst(trimmed, ' ');
      if |parts| != 2 then Malformed(trimmed)
      else
        TrimSpaceInfix(parts[0]);
        assert ' ' !in parts[0] && trimmed == parts[0] + [' '] + parts[1];
        Entry(TrimSpace(parts[1]), TrimSpace(parts[0]))
  }

  /** Each line of the list parsed. */
  function Parsed(lines: seq<string>): (r: seq<Line>)
    ensures |r| == |lines| && forall k :: 0 <= k < |lines| ==> r[k] == ParseLine(lines[k])
  {
    seq(|lines|, k requires 0 <= k < |lines| => ParseLine(lines[k]))
  }

  /** The lines of the list folded into the map in order. */
  function Collect(lines: seq<string>): Result<map<string, string>, ListError> {
    Fold(Parsed(lines))
  }

  /** Parsed lines folded into the map in order: a later entry for a file
      overrides an earlier one, and the first malformed line fails the
      whole list. */
  function Fold(parsed: seq<Line>): Result<map<string, string>, ListError> {
    if |parsed| == 0 then Ok(map[])
    else Extend(Fold(parsed[..|parsed| - 1]), parsed[|parsed| - 1])
  }

  /** One more line read into the map built so far. */
  function Extend(acc: Result<map<string, string>, ListError>, line: Line): Result<map<string, string>, ListError> {
    match acc
    case Err(e) => Err(e)
    case Ok(m) =>
      match line
      case Blank => Ok(m)
      case Entry(filename, hash) => Ok(m[filename := hash])
      case Malformed(text) => Err(InvalidLine(text))
  }

  /** The fold one line further. */
  lemma FoldNext(parsed: seq<Line>, i: nat)
    requires i < |parsed|
    ensures Fold(parsed[..i + 1]) == Extend(Fold(parsed[..i]), parsed[i])
  {
    assert parsed[..i + 1][..i] == parsed[..i];
  }

  /** Once a prefix fails, the whole list fails with the same error. */
  lemma {:induction false} FoldErrStays(parsed: seq<Line>, n: nat)
    requires n <= |parsed| && Fold(parsed[..n]).Err?
    ensures Fold(parsed) == Fold(parsed[..n])
    decreases |parsed| - n
  {
    if n < |parsed| {
      FoldNext(parsed, n);
      FoldErrStays(parsed, n + 1);
    } else {
      assert parsed[..n] == parsed;
    }
  }

  /** The hash on the last entry for `filename`, if any: an independent
      reading of the parsed list, from its end. */
  function LastHash(parsed: seq<Line>, filename: string): (h: Option<string>)
    ensures h.Some? ==> exists i :: 0 <= i < |parsed| && parsed[i] == Entry(filename, h.value)
  {
    if |parsed| == 0 then None
    else
      var last := parsed[|parsed| - 1];
      if last.Entry? && last.filename == filename then Some(last.hash)
      else
        var h := LastHash(parsed[..|parsed| - 1], filename);
        if h.Some? then
          var i :| 0 <= i < |parsed| - 1 && parsed[..|parsed| - 1][i] == Entry(filename, h.value);
          assert parsed[..|parsed| - 1][i] == parsed[i];
          h
        else None
  }

  /** A parsed list holds exactly the files named on entry lines, each with
      the hash of its last line. */
  lemma {:induction false} FoldLastHash(parsed: seq<Line>)
    requires Fold(parsed).Ok?
    ensures forall f :: f in Fold(parsed).value <==> LastHash(parsed, f).Some?
    ensures forall f :: f in Fold(parsed).value ==> Fold(parsed).value[f] == LastHash(parsed, f).value
  {
    if |parsed| > 0 {
      FoldLastHash(parsed[..|parsed| - 1]);
    }
  }

  /** A parsed list fails exactly when some line is malformed. */
  lemma {:induction false} FoldFails(parsed: seq<Line>)
    ensures Fold(parsed).Err? <==> exists i :: 0 <= i < |parsed| && parsed[i].Malformed?
  {
    if |parsed| > 0 {
      var init := parsed[..|parsed| - 1];
      FoldFails(init);
      if Fold(init).Err? {
        var i :| 0 <= i < |init| && init[i].Malformed?;
        assert parsed[i] == init[i];
      } else if !parsed[|init|].Malformed? {
        forall i | 0 <= i < |parsed|
          ensures !parsed[i].Malformed?
        {
          if i < |init| {
            assert parsed[i] == init[i];
          }
        }
      }
    }
  }

  /** The upgrade list holds exactly the files named on its entry lines,
      each with the hash on the last line naming it. */
  lemma CollectLastHash(lines: seq<string>)
    requires Collect(lines).Ok?
    ensures forall f :: f in Collect(lines).value <==> LastHash(Parsed(lines), f).Some?
    ensures forall f :: f in Collect(lines).value ==> Collect(lines).value[f] == LastHash(Parsed(lines), f).value
  {
    FoldLastHash(Parsed(lines));
  }

  /** The upgrade list fails exactly when one of its lines is malformed. */
  lemma CollectFails(lines: seq<string>)
    ensures Collect(lines).Err? <==> exists i :: 0 <= i < |lines| && ParseLine(lines[i]).Malformed?
  {
    var parsed := Parsed(lines);
    FoldFails(parsed);
    if exists i :: 0 <= i < |lines| && ParseLine(lines[i]).Malformed? {
      var i :| 0 <= i < |lines| && ParseLine(lines[i]).Malformed?;
      assert parsed[i].Malformed?;
    }
  }

  /** `parseUpgradeList`: the list read line by line into a map from file
      name to hash; any malformed line fails the whole list and no partial
      map is returned. */
  method ParseUpgradeList(content: string) returns (r: Result<map<string, string>, ListError>)
    ensures r == Collect(Split(content, '\n'))
  {
    r := ReadLines(Split(content, '\n'));
  }

  /** The loop of `parseUpgradeList` over the lines of the list. */
  method ReadLines(lines: seq<string>) returns (r: Result<map<string, string>, ListError>)
    ensures r == Collect(lines)
  {
    ghost var parsed := Parsed(lines);
    var upgradeMap := map[];
    var i := 0;
    while i < |lines|
      invariant 0 <= i <= |lines|
      invariant Fold(parsed[..i]) == Ok(upgradeMap)
    {
      FoldNext(parsed, i);
      match ParseLine(lines[i]) {
        case Blank =>
        case Malformed(line) =>
          FoldErrStays(parsed, i + 1);
          return Err(InvalidLine(line));
        case Entry(filename, hash) =>
          upgradeMap := upgradeMap[filename := hash];
      }
      i := i + 1;
    }
    assert parsed[..i] == parsed;
    return Ok(upgradeMap);
  }

  /** A well-formed list line reads back as its file name and hash. */
  lemma EntryLine(hash: string, filename: string)
    requires hash != [] && forall k :: 0 <= k < |hash| ==> !IsSpace(hash[k])
    requires filename != [] && !IsSpace(filename[0]) && !IsSpace(filename[|filename| - 1])
    ensures ParseLine(hash + " " + filename) == Entry(filename, hash)
  {
    var line := hash + " " + filename;
    TrimSpaceUnchanged(line);
    assert ' ' !in hash;
    assert line == hash + [' '] + filename;
    SplitFirstCons(hash, filename, ' ');
    TrimSpaceUnchanged(hash);
    TrimSpaceUnchanged(filename);
  }

  // ---------------------------------------------------------------------
  // Download progress

  type int64 = x: int | MinInt64 <= x <= MaxInt64

  /** `x` as a Go int64 holds it: wrapped into the 64-bit range. */
  function Wrap64(x: int): (r: int64)
    ensures MinInt64 <= x <= MaxInt64 ==> r == x
    ensures (r - x) % 0x1_0000_0000_0000_0000 == 0
  {
    (x - MinInt64) % 0x1_0000_0000_0000_0000 + MinInt64
  }

  /** Wrapping an intermediate sum changes nothing. */
  lemma Wrap64Add(x: int, n: int)
    ensures Wrap64(Wrap64(x) + n) == Wrap64(x + n)
  {
    var m := 0x1_0000_0000_0000_0000;
    var q := (x - MinInt64) / m;
    assert Wrap64(x) == x - q * m;
    assert Wrap64(x) + n - MinInt64 == (x + n - MinInt64) - q * m;
  }

  /** The progress-reporting writer of a download. The callback is kept as
      whether there is one; each call it would receive is returned. */
  class ProgressWriter {
    const total: int64
    const hasCallback: bool
    var downloaded: int64
    /** The bytes written so far, without wrap-around. */
    ghost var written: nat

    ghost predicate Valid()
      reads this
    {
      downloaded == Wrap64(written)
    }

    constructor (total: int64, hasCallback: bool)
      ensures Valid() && written == 0 && downloaded == 0
      ensures this.total == total && this.hasCallback == hasCallback
    {
      this.total := total;
      this.hasCallback := hasCallback;
      downloaded := 0;
      written := 0;
    }

    /** `Write`: passes on what the underlying writer did with `p` (it wrote
        `n` bytes, or failed); only a successful write is counted and
        reported to the callback as (downloaded, total). */
    method Write(p: seq<Bytes.byte>, n: nat, err: Option<string>) returns (count: nat, e: Option<string>, report: Option<(int64, int64)>)
      requires Valid() && n <= |p|
      modifies this
      ensures Valid()
      ensures count == n && e == err
      ensures err.Some? ==> downloaded == old(downloaded) && written == old(written) && report == None
      ensures err.None? ==> written == old(written) + n && downloaded == Wrap64(old(downloaded) + n)
      ensures err.None? ==> report == (if hasCallback then Some((downloaded, total)) else None)
    {
      if err.Some? {
        return n, err, None;
      }
      Wrap64Add(written, n);
      downloaded := Wrap64(downloaded + n);
      written := written + n;
      report := if hasCallback then Some((downloaded, total)) else None;
      return n, None, report;
    }
  }

  /** Until 2^63 bytes have been written the count is exact. */
  lemma DownloadedExact(w: ProgressWriter)
    requires w.Valid() && w.written <= MaxInt64
    ensures w.downloaded == w.written
  {
  }
}
