/** The one-pass extraction of printable runs from a binary (extract_ascii_strings). */
module AsciiStrings {
  import opened Bits

  /** string.printable without the vertical tab, form feed, CR, LF and tab. */
  predicate IsStringByte(b: Byte) {
    0x20 <= b <= 0x7E
  }

  const DIGITS := "0123456789"
  const PUNCTUATION := "!\"#$%&'()*+,-./:;<=>?@"
  const MORE_PUNCTUATION := "[\\]^_`{|}~"

  /** Python's digits, letters, punctuation and the space: its printable characters without the other white space. */
  lemma StringBytesArePrintable(b: Byte)
    ensures var c := b as char;
            IsStringByte(b) <==>
            c in DIGITS || 'a' <= c <= 'z' || 'A' <= c <= 'Z' || c in PUNCTUATION || c in MORE_PUNCTUATION || c == ' '
  {
    var n := b as int;
    assert forall i | 0 <= i < 10 :: DIGITS[i] as int == 0x30 + i;
    assert 0x30 <= n <= 0x39 ==> DIGITS[n - 0x30] == b as char;
    PunctuationIs(b as char);
  }

  lemma PunctuationIs(c: char)
    ensures c in PUNCTUATION <==> '!' <= c <= '/' || ':' <= c <= '@'
    ensures c in MORE_PUNCTUATION <==> '[' <= c <= '`' || '{' <= c <= '~'
  {
    LowPunctuationIs(c);
    HighPunctuationIs(c);
  }

  lemma LowPunctuationIs(c: char)
    ensures c in PUNCTUATION <==> '!' <= c <= '/' || ':' <= c <= '@'
  {
    assert |PUNCTUATION| == 22;
    if '!' <= c <= '/' {
      assert PUNCTUATION[c as int - 0x21] == c;
    } else if ':' <= c <= '@' {
      assert PUNCTUATION[c as int - 0x3A + 15] == c;
    }
  }

  lemma HighPunctuationIs(c: char)
    ensures c in MORE_PUNCTUATION <==> '[' <= c <= '`' || '{' <= c <= '~'
  {
    assert |MORE_PUNCTUATION| == 10;
    if '[' <= c <= '`' {
      assert MORE_PUNCTUATION[c as int - 0x5B] == c;
    } else if '{' <= c <= '~' {
      assert MORE_PUNCTUATION[c as int - 0x7B + 6] == c;
    }
  }

  datatype Found = Found(offset: nat, value: Bytes)

  // ---- What is looked for --------------------------------------------------------------------

  /** A non-empty run of string bytes that cannot be extended on either side. */
  predicate IsMaximalRun(data: Bytes, offset: int, length: int) {
    && 0 <= offset && 0 < length && offset + length <= |data|
    && (forall i | offset <= i < offset + length :: IsStringByte(data[i]))
    && (offset > 0 ==> !IsStringByte(data[offset - 1]))
    && (offset + length < |data| ==> !IsStringByte(data[offset + length]))
  }

  ghost predicate Reported(found: seq<Found>, offset: int, length: int) {
    exists k :: 0 <= k < |found| && found[k].offset == offset && |found[k].value| == length
  }

  /** A maximal run from `from` on of at least `least` bytes, with its bytes. */
  ghost predicate IsRunOf(data: Bytes, from: int, least: int, found: Found) {
    && from <= found.offset && |found.value| >= least
    && IsMaximalRun(data, found.offset, |found.value|)
    && found.value == data[found.offset..found.offset + |found.value|]
  }

  ghost predicate OnlyRuns(data: Bytes, from: int, least: int, found: seq<Found>) {
    forall k | 0 <= k < |found| :: IsRunOf(data, from, least, found[k])
  }

  /** No such run is missing. */
  ghost predicate AllRuns(data: Bytes, from: int, least: int, found: seq<Found>) {
    forall offset, length | from <= offset && IsMaximalRun(data, offset, length) && length >= least ::
      Reported(found, offset, length)
  }

  ghost predicate InOrder(found: seq<Found>) {
    forall j, k | 0 <= j < k < |found| :: found[j].offset + |found[j].value| < found[k].offset
  }

  ghost predicate ExactlyTheRuns(data: Bytes, from: int, least: int, found: seq<Found>) {
    OnlyRuns(data, from, least, found) && AllRuns(data, from, least, found) && InOrder(found)
  }

  // ---- The scan without a limit -----------------------------------------------------------------

  /** What is reported from position `i` of data and its terminator on, with `current` collected since `start`. */
  function Scan(data: Bytes, i: nat, start: nat, current: Bytes, least: int): seq<Found>
    requires i <= |data| + 1
    decreases |data| + 1 - i
  {
    if i == |data| + 1 then []
    else
      var b := (data + [0])[i];
      if IsStringByte(b) then Scan(data, i + 1, if current == [] then i else start, current + [b], least)
      else Ended(start, current, least) + Scan(data, i + 1, start, [], least)
  }

  /** `current` is the beginning of a run that started at `start` and has not ended before `i`. */
  ghost predicate Collecting(data: Bytes, i: nat, start: nat, current: Bytes) {
    && i <= |data| + 1
    && (i == |data| + 1 ==> current == [])
    && (current == [] && 0 < i <= |data| ==> !IsStringByte(data[i - 1]))
    && (current != [] ==>
          && start + |current| == i <= |data| && current == data[start..i]
          && (forall k | start <= k < i :: IsStringByte(data[k]))
          && (start > 0 ==> !IsStringByte(data[start - 1])))
  }

  lemma Collect(data: Bytes, i: nat, start: nat, current: Bytes)
    requires Collecting(data, i, start, current) && i < |data| && IsStringByte(data[i])
    ensures Collecting(data, i + 1, if current == [] then i else start, current + [data[i]])
  {}

  /** The only maximal run between the start of the current one and the byte that ends it is the current one. */
  lemma RunAtStart(data: Bytes, i: nat, start: nat, current: Bytes, offset: int, length: int)
    requires i <= |data| && (i == |data| || !IsStringByte(data[i]))
    requires Collecting(data, i, start, current) && IsMaximalRun(data, offset, length)
    requires (if current == [] then i else start) <= offset <= i
    ensures current != [] && offset == start && length == |current|
  {}

  function Ended(start: nat, current: Bytes, least: int): seq<Found> {
    if |current| >= least then [Found(start, current)] else []
  }

  lemma RunEndsComplete(data: Bytes, i: nat, start: nat, current: Bytes, least: int, more: seq<Found>)
    requires least >= 1 && i <= |data| && (i == |data| || !IsStringByte(data[i]))
    requires Collecting(data, i, start, current) && AllRuns(data, i + 1, least, more)
    ensures AllRuns(data, if current == [] then i else start, least, Ended(start, current, least) + more)
  {
    hide IsMaximalRun, Collecting;
    var first := Ended(start, current, least);
    var found := first + more;
    forall offset, length | (if current == [] then i else start) <= offset && IsMaximalRun(data, offset, length) && length >= least
      ensures Reported(found, offset, length)
    {
      if offset <= i {
        RunAtStart(data, i, start, current, offset, length);
        assert found[0] == Found(start, current);
      } else {
        assert Reported(more, offset, length);
        var k :| 0 <= k < |more| && more[k].offset == offset && |more[k].value| == length;
        assert found[|first| + k] == more[k];
      }
    }
  }

  lemma PrependSound(data: Bytes, from: int, next: int, least: int, first: Found, more: seq<Found>)
    requires OnlyRuns(data, next, least, more) && InOrder(more)
    requires IsRunOf(data, from, least, first) && first.offset + |first.value| < next && from <= next
    ensures OnlyRuns(data, from, least, [first] + more) && InOrder([first] + more)
  {
    hide IsMaximalRun;
    var found := [first] + more;
    forall k | 0 <= k < |found| ensures IsRunOf(data, from, least, found[k]) {
      if k > 0 {
        assert IsRunOf(data, next, least, more[k - 1]);
      }
    }
    forall j, k | 0 <= j < k < |found| ensures found[j].offset + |found[j].value| < found[k].offset {
      assert IsRunOf(data, next, least, more[k - 1]);
    }
  }

  lemma EndedIsRun(data: Bytes, i: nat, start: nat, current: Bytes, least: int)
    requires least >= 1 && i <= |data| && (i == |data| || !IsStringByte(data[i]))
    requires Collecting(data, i, start, current) && |current| >= least
    ensures IsRunOf(data, start, least, Found(start, current)) && start + |current| == i
  {}

  lemma RunEndsSound(data: Bytes, i: nat, start: nat, current: Bytes, least: int, more: seq<Found>)
    requires least >= 1 && i <= |data| && (i == |data| || !IsStringByte(data[i]))
    requires Collecting(data, i, start, current) && OnlyRuns(data, i + 1, least, more) && InOrder(more)
    ensures OnlyRuns(data, if current == [] then i else start, least, Ended(start, current, least) + more)
    ensures InOrder(Ended(start, current, least) + more)
  {
    hide IsMaximalRun, InOrder;
    if |current| >= least {
      EndedIsRun(data, i, start, current, least);
      PrependSound(data, start, i + 1, least, Found(start, current), more);
    } else {
      assert [] + more == more;
      assert current == [] || start <= i;
    }
  }

  lemma NothingAfterEnd(data: Bytes, i: nat, start: nat, current: Bytes, least: int)
    requires i == |data| + 1 && Collecting(data, i, start, current)
    ensures ExactlyTheRuns(data, i, least, [])
  {}

  lemma {:induction false} ScanFindsRuns(data: Bytes, i: nat, start: nat, current: Bytes, least: int)
    requires least >= 1 && Collecting(data, i, start, current)
    ensures ExactlyTheRuns(data, if current == [] then i else start, least, Scan(data, i, start, current, least))
    decreases |data| + 1 - i
  {
    hide OnlyRuns, AllRuns, InOrder;
    if i == |data| + 1 {
      NothingAfterEnd(data, i, start, current, least);
    } else if i < |data| && IsStringByte(data[i]) {
      Collect(data, i, start, current);
      ScanFindsRuns(data, i + 1, if current == [] then i else start, current + [data[i]], least);
    } else {
      var more := Scan(data, i + 1, start, [], least);
      ScanFindsRuns(data, i + 1, start, [], least);
      RunEndsComplete(data, i, start, current, least, more);
      RunEndsSound(data, i, start, current, least, more);
    }
  }

  ghost predicate ScansExactly(data: Bytes, least: int) {
    ExactlyTheRuns(data, 0, least, Scan(data, 0, 0, [], least))
  }

  /** The unlimited scan reports exactly the maximal runs of every input if and only if the least length is positive. */
  lemma ScanIsExactIffPositive(least: int)
    ensures (forall data :: ScansExactly(data, least)) <==> least >= 1
  {
    if least >= 1 {
      forall data ensures ScansExactly(data, least) {
        ScanFindsRuns(data, 0, 0, [], least);
      }
    } else {
      var data: Bytes := [];
      assert (data + [0])[0] == 0;
      assert Scan(data, 0, 0, [], least) == [Found(0, [])] + Scan(data, 1, 0, [], least);
      var found := Scan(data, 0, 0, [], least);
      assert found[0] == Found(0, []) && !IsRunOf(data, 0, least, found[0]);
      assert !ScansExactly(data, least);
    }
  }

  // ---- The program -------------------------------------------------------------------------------

  /** The first `limit` entries; the limit is only looked at after an entry was added. */
  function FirstOf(found: seq<Found>, limit: int): seq<Found> {
    if limit < 1 then found[..if |found| == 0 then 0 else 1]
    else found[..if |found| < limit then |found| else limit]
  }

  /** A limit that is not positive acts as 1, and a limit cuts only what exceeds it. */
  lemma LimitCuts(found: seq<Found>, limit: int)
    ensures limit <= 0 ==> FirstOf(found, limit) == FirstOf(found, 1)
    ensures limit >= 1 && |found| <= limit ==> FirstOf(found, limit) == found
    ensures limit >= 1 && |found| > limit ==> FirstOf(found, limit) == found[..limit]
  {
    assert found[..|found|] == found;
  }

  method ExtractAsciiStrings(data: Bytes, least: int, limit: int) returns (results: seq<Found>)
    ensures results == FirstOf(Scan(data, 0, 0, [], least), limit)
  {
    results := [];
    var current: Bytes := [];
    var start := 0;
    hide Scan;
    var bytes := data + [0];
    ghost var all := Scan(data, 0, 0, [], least);
    for index := 0 to |bytes|
      invariant all == results + Scan(data, index, start, current, least)
      invariant |results| < if limit < 1 then 1 else limit
    {
      var b := bytes[index];
      ScanStep(data, index, start, current, least);
      if IsStringByte(b) {
        if current == [] {
          start := index;
        }
        current := current + [b];
        continue;
      }
      if |current| >= least {
        AddToFront(results, Found(start, current), Scan(data, index + 1, start, [], least));
        results := results + [Found(start, current)];
        if |results| >= limit {
          return results;
        }
      }
      current := [];
    }
    ScanEnd(data, start, current, least);
  }

  lemma ScanStep(data: Bytes, i: nat, start: nat, current: Bytes, least: int)
    requires i <= |data|
    ensures var b := (data + [0])[i];
            Scan(data, i, start, current, least) ==
            if IsStringByte(b) then Scan(data, i + 1, if current == [] then i else start, current + [b], least)
            else if |current| >= least then [Found(start, current)] + Scan(data, i + 1, start, [], least)
            else Scan(data, i + 1, start, [], least)
  {}

  lemma ScanEnd(data: Bytes, start: nat, current: Bytes, least: int)
    ensures Scan(data, |data| + 1, start, current, least) == []
  {}

  lemma AddToFront(results: seq<Found>, found: Found, more: seq<Found>)
    ensures results + ([found] + more) == (results + [found]) + more
    ensures FirstOf((results + [found]) + more, |results| + 1) == results + [found]
  {}

  /** With a positive least length and a positive limit: the first `limit` maximal runs, in order, none missed. */
  lemma FirstRunsAreFound(data: Bytes, least: int, limit: int)
    requires least >= 1 && limit >= 1
    ensures var results := FirstOf(Scan(data, 0, 0, [], least), limit);
            exists more ::
              && ExactlyTheRuns(data, 0, least, results + more)
              && (more != [] ==> |results| == limit)
              && |results| <= limit
  {
    hide Scan, ExactlyTheRuns;
    var all := Scan(data, 0, 0, [], least);
    ScanFindsRuns(data, 0, 0, [], least);
    var results := FirstOf(all, limit);
    var more := all[|results|..];
    assert results + more == all;
  }
}
