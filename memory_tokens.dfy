/** The token decoders shared by the heap-info and native-memory scanners:
    `parse_memory_from_heap_info` (a size next to a marker), and
    `parse_reserved_committed` / `parse_name_reserved_committed` (the
    `reserved=` and `committed=` figures and the region name of a
    native-memory row). */
module MemoryTokens {
  import opened Wrappers
  import opened Text
  import opened Numbers

  /** The characters deleted from a size token before it is read. */
  const SizeNoise: set<char> := {'K', 'M', 'G', ','}

  /** A size token such as `100K,` in bytes: the unit letters and commas
      deleted, the rest trimmed and read as a `u64` (a failed read is the
      `unwrap` panic), then scaled by the token's unit, wrapping at 2^64. */
  function SizeInBytes(token: string): Result<nat> {
    match ParseUnsigned(Trim(RemoveChars(token, SizeNoise)), U64_LIMIT)
    case Some(n) => Ok(Wrap64(InBytes(n, SizeUnitOf(token))))
    case None => Err(Panic)
  }

  /** `parse_memory_from_heap_info` on the row's space-separated tokens:
      nothing when no token equals the marker; otherwise the size in the token
      after it, or before it when `reversed`. A neighbour outside the row is
      the `unwrap` panic on `parts.get`. */
  function MemoryFromTokens(parts: seq<string>, marker: string, reversed: bool): (r: Result<Option<nat>>)
    ensures r == Ok(None) <==> marker !in parts
  {
    if marker !in parts then Ok(None)
    else
      var i := IndexOf(parts, marker);
      if reversed && i == 0 then Err(Panic)
      else
        var j := if reversed then i - 1 else i + 1;
        if j >= |parts| then Err(Panic)
        else
          match SizeInBytes(parts[j])
          case Ok(n) => Ok(Some(n))
          case Err(e) => Err(e)
  }

  function MemoryFromHeapInfo(row: string, marker: string, reversed: bool): Result<Option<nat>> {
    MemoryFromTokens(Split(row, ' '), marker, reversed)
  }

  /** The scan of `parse_memory_from_heap_info`: the tokens are walked until
      the first one equal to the marker. */
  method ParseMemoryFromHeapInfo(row: string, marker: string, reversed: bool) returns (r: Result<Option<nat>>)
    ensures r == MemoryFromHeapInfo(row, marker, reversed)
  {
    var parts := Split(row, ' ');
    var i := 0;
    while i < |parts|
      invariant 0 <= i <= |parts|
      invariant marker !in parts[..i]
    {
      if parts[i] == marker {
        assert IndexOf(parts, marker) == i by {
          assert forall k | 0 <= k < i :: parts[k] != marker by {
            forall k | 0 <= k < i ensures parts[k] != marker {
              assert parts[k] in parts[..i];
            }
          }
        }
        if reversed && i == 0 {
          return Err(Panic);
        }
        var j := if reversed then i - 1 else i + 1;
        if j >= |parts| {
          return Err(Panic);
        }
        var size := SizeInBytes(parts[j]);
        if size.Err? {
          return Err(size.error);
        }
        return Ok(Some(size.value));
      }
      assert parts[..i + 1] == parts[..i] + [parts[i]];
      i := i + 1;
    }
    assert parts[..i] == parts;
    return Ok(None);
  }

  /** Digits hold no unit letter and no comma. */
  lemma DigitsLackNoise(s: string)
    requires AllDigits(s)
    ensures RemoveChars(s, SizeNoise) == s && RemoveChars(s, {','}) == s
    ensures 'K' !in s && 'M' !in s && 'G' !in s
  {
    RemoveAbsentChars(s, SizeNoise);
    RemoveAbsentChars(s, {','});
  }

  /** A number followed by a unit letter and possibly a comma is read back
      and scaled by that unit. */
  lemma SizeTokenBytes(token: string, n: nat, unit: char, tail: string)
    requires n < U64_LIMIT
    requires unit == 'K' || unit == 'M' || unit == 'G'
    requires tail == "" || tail == ","
    requires token == DecimalString(n) + [unit] + tail
    ensures SizeInBytes(token) == Ok(Wrap64(InBytes(n, SizeUnitOf([unit]))))
  {
    var digits := DecimalString(n);
    DigitsLackNoise(digits);
    RemoveCharsAppend(digits + [unit], tail, SizeNoise);
    RemoveCharsAppend(digits, [unit], SizeNoise);
    assert RemoveChars(token, SizeNoise) == digits;
    DecimalReadBack(n, U64_LIMIT);
    assert SizeUnitOf(token) == SizeUnitOf([unit]);
  }

  /** A plain number is a number of bytes. */
  lemma PlainSizeBytes(n: nat)
    requires n < U64_LIMIT
    ensures SizeInBytes(DecimalString(n)) == Ok(n)
  {
    DigitsLackNoise(DecimalString(n));
    DecimalReadBack(n, U64_LIMIT);
  }

  /** On a row rendered from space-free tokens, the decoder reads the token
      next to the first occurrence of the marker. */
  lemma {:induction false} LabelledSize(ts: seq<string>, i: nat, marker: string, reversed: bool)
    requires |ts| >= 1 && forall k | 0 <= k < |ts| :: ' ' !in ts[k]
    requires i < |ts| && ts[i] == marker && marker !in ts[..i]
    requires if reversed then i >= 1 else i + 1 < |ts|
    ensures MemoryFromHeapInfo(Join(ts, " "), marker, reversed)
         == (match SizeInBytes(ts[if reversed then i - 1 else i + 1])
             case Ok(n) => Ok(Some(n))
             case Err(e) => Err(e))
  {
    SplitJoin(ts, ' ');
    assert IndexOf(ts, marker) == i;
  }

  /** A figure in kilobytes followed by a comma, as the heap report writes
      it, is read as that many times 1024 bytes. */
  lemma KilobyteToken(n: nat)
    requires n * 1024 < U64_LIMIT
    ensures SizeInBytes(DecimalString(n) + "K,") == Ok(n * 1024)
  {
    var token := DecimalString(n) + "K,";
    assert token == DecimalString(n) + ['K'] + ",";
    SizeTokenBytes(token, n, 'K', ",");
  }

  /** `used 100K,` reads as 100 * 1024 bytes. */
  lemma UsedKilobytesExample(row: string)
    requires row == "used 100K,"
    ensures MemoryFromHeapInfo(row, "used", false) == Ok(Some(102400))
  {
    assert DecimalString(100) == "100";
    var ts := ["used", DecimalString(100) + "K,"];
    assert row == Join(ts, " ");
    LabelledSize(ts, 0, "used", false);
    KilobyteToken(100);
  }

  // ---------------------------------------------------------------------------
  // parse_reserved_committed

  datatype SizePair = SizePair(reserved: Option<nat>, committed: Option<nat>)

  /** The two fields of a native-memory row. */
  datatype SizeField = Reserved | Committed

  function SizeFieldName(field: SizeField): (r: string)
    ensures r != [] && '=' in r
  {
    match field
    case Reserved => "reserved="
    case Committed => "committed="
  }

  /** The figure of a `reserved=` or `committed=` token: the field name and
      commas deleted, trimmed and read as a `u64`; a failed read is the
      `unwrap` panic. */
  function FieldFigure(part: string, field: SizeField): Result<nat> {
    match ParseUnsigned(Trim(RemoveChars(Replace(part, SizeFieldName(field), ""), {','})), U64_LIMIT)
    case Some(n) => Ok(n)
    case None => Err(Panic)
  }

  /** A reader of the figure of a field token. The rules of the token loop
      below are stated for any reader; `ReservedCommitted` uses
      `FieldFigure`. */
  type FigureReader = (string, SizeField) -> Result<nat>

  /** One token of `parse_reserved_committed`: a `reserved=` token sets the
      reserved figure, a `committed=` token the committed one. */
  function SizesStep(acc: SizePair, part: string, read: FigureReader): Result<SizePair> {
    if "reserved=" <= part then
      var n :- read(part, Reserved);
      Ok(acc.(reserved := Some(n)))
    else if "committed=" <= part then
      var n :- read(part, Committed);
      Ok(acc.(committed := Some(n)))
    else Ok(acc)
  }

  /** The token loop over the tokens seen so far: the steps in order, the
      first panic ending the loop. */
  function Sizes(parts: seq<string>, read: FigureReader): Result<SizePair>
    decreases |parts|
  {
    if |parts| == 0 then Ok(SizePair(None, None))
    else
      var prior := Sizes(parts[..|parts| - 1], read);
      if prior.Err? then prior else SizesStep(prior.value, parts[|parts| - 1], read)
  }

  /** `parse_reserved_committed`. */
  function ReservedCommitted(parts: seq<string>): Result<SizePair> {
    Sizes(parts, FieldFigure)
  }

  method ParseReservedCommitted(parts: seq<string>) returns (r: Result<SizePair>)
    ensures r == ReservedCommitted(parts)
  {
    var reserved: Option<nat> := None;
    var committed: Option<nat> := None;
    for i := 0 to |parts|
      invariant Sizes(parts[..i], FieldFigure) == Ok(SizePair(reserved, committed))
    {
      var part := parts[i];
      assert parts[..i + 1][..i] == parts[..i];
      if "reserved=" <= part {
        var figure := FieldFigure(part, Reserved);
        if figure.Err? {
          SizesSticky(parts, i + 1, FieldFigure);
          return figure.PropagateFailure();
        }
        reserved := Some(figure.value);
      } else if "committed=" <= part {
        var figure := FieldFigure(part, Committed);
        if figure.Err? {
          SizesSticky(parts, i + 1, FieldFigure);
          return figure.PropagateFailure();
        }
        committed := Some(figure.value);
      }
    }
    assert parts[..|parts|] == parts;
    return Ok(SizePair(reserved, committed));
  }

  /** Once the loop has panicked, further tokens do not matter. */
  lemma {:induction false} SizesSticky(parts: seq<string>, k: nat, read: FigureReader)
    requires k <= |parts| && Sizes(parts[..k], read).Err?
    ensures Sizes(parts, read) == Sizes(parts[..k], read)
    decreases |parts| - k
  {
    if k < |parts| {
      assert parts[..k + 1][..k] == parts[..k];
      SizesSticky(parts, k + 1, read);
    } else {
      assert parts[..k] == parts;
    }
  }

  /** A token that sets the reserved figure. */
  predicate ReservedToken(part: string) {
    "reserved=" <= part
  }

  /** A token that sets the committed figure (a `reserved=` token is
      examined first). */
  predicate CommittedToken(part: string) {
    !("reserved=" <= part) && "committed=" <= part
  }

  /** The reserved figure is set exactly when some token carries the
      `reserved=` prefix. */
  lemma {:induction false} ReservedPresent(parts: seq<string>, read: FigureReader)
    requires Sizes(parts, read).Ok?
    ensures Sizes(parts, read).value.reserved.Some? <==> exists i | 0 <= i < |parts| :: ReservedToken(parts[i])
    decreases |parts|
  {
    if |parts| > 0 {
      var init := parts[..|parts| - 1];
      ReservedPresent(init, read);
      assert forall i | 0 <= i < |init| :: init[i] == parts[i];
    }
  }

  /** A reserved figure is that of the last `reserved=` token, found at the
      returned position. */
  lemma {:induction false} ReservedLastWins(parts: seq<string>, read: FigureReader) returns (i: nat)
    requires Sizes(parts, read).Ok? && Sizes(parts, read).value.reserved.Some?
    ensures i < |parts| && ReservedToken(parts[i])
    ensures read(parts[i], Reserved) == Ok(Sizes(parts, read).value.reserved.value)
    ensures forall j | i < j < |parts| :: !ReservedToken(parts[j])
    decreases |parts|
  {
    var init := parts[..|parts| - 1];
    if ReservedToken(parts[|parts| - 1]) {
      i := |parts| - 1;
    } else {
      i := ReservedLastWins(init, read);
    }
  }

  /** The committed figure is set exactly when some token sets it. */
  lemma {:induction false} CommittedPresent(parts: seq<string>, read: FigureReader)
    requires Sizes(parts, read).Ok?
    ensures Sizes(parts, read).value.committed.Some? <==> exists i | 0 <= i < |parts| :: CommittedToken(parts[i])
    decreases |parts|
  {
    if |parts| > 0 {
      var init := parts[..|parts| - 1];
      CommittedPresent(init, read);
      assert forall i | 0 <= i < |init| :: init[i] == parts[i];
    }
  }

  /** A committed figure is that of the last token setting it, found at the
      returned position. */
  lemma {:induction false} CommittedLastWins(parts: seq<string>, read: FigureReader) returns (i: nat)
    requires Sizes(parts, read).Ok? && Sizes(parts, read).value.committed.Some?
    ensures i < |parts| && CommittedToken(parts[i])
    ensures read(parts[i], Committed) == Ok(Sizes(parts, read).value.committed.value)
    ensures forall j | i < j < |parts| :: !CommittedToken(parts[j])
    decreases |parts|
  {
    var init := parts[..|parts| - 1];
    if CommittedToken(parts[|parts| - 1]) {
      i := |parts| - 1;
    } else {
      i := CommittedLastWins(init, read);
    }
  }

  /** The loop panics exactly when some `reserved=` or `committed=` token
      cannot be read. */
  lemma {:induction false} SizesPanic(parts: seq<string>, read: FigureReader)
    ensures Sizes(parts, read).Err? <==> exists i | 0 <= i < |parts| ::
      || (ReservedToken(parts[i]) && read(parts[i], Reserved).Err?)
      || (CommittedToken(parts[i]) && read(parts[i], Committed).Err?)
    decreases |parts|
  {
    if |parts| > 0 {
      var init := parts[..|parts| - 1];
      SizesPanic(init, read);
      assert forall i | 0 <= i < |init| :: init[i] == parts[i];
    }
  }

  /** What the figure decoder hands to the integer parse, for a value part
      without '=', ',' or whitespace: the value part itself. */
  lemma CleanedFigure(field: SizeField, rest: string)
    requires '=' !in rest && ',' !in rest
    requires forall k | 0 <= k < |rest| :: !IsWhitespace(rest[k])
    ensures Trim(RemoveChars(Replace(SizeFieldName(field) + rest, SizeFieldName(field), ""), {','})) == rest
  {
    StripColumn(SizeFieldName(field), rest);
    RemoveAbsentChars(rest, {','});
    TrimWithoutWhitespace(rest);
  }

  /** A field written the way the native-memory report writes it is read
      back. */
  lemma FieldFigureRoundTrip(field: SizeField, n: nat)
    requires n < U64_LIMIT
    ensures FieldFigure(SizeFieldName(field) + DecimalString(n), field) == Ok(n)
  {
    var digits := DecimalString(n);
    forall k | 0 <= k < |digits|
      ensures !IsWhitespace(digits[k])
    {
      DigitNotWhitespace(digits[k]);
    }
    CleanedFigure(field, digits);
    ParseUnsignedRoundTrip(n, U64_LIMIT);
  }

  /** A negative figure is not a `u64`: `parse_reserved_committed` panics
      on it. */
  lemma FieldFigureRejects(field: SizeField, n: nat)
    ensures FieldFigure(SizeFieldName(field) + ("-" + DecimalString(n)), field) == Err(Panic)
  {
    var rest := "-" + DecimalString(n);
    forall k | 0 <= k < |rest|
      ensures !IsWhitespace(rest[k])
    {
      if k > 0 {
        DigitNotWhitespace(rest[k]);
      }
    }
    CleanedFigure(field, rest);
    assert !IsDigit(rest[0]);
  }

  // ---------------------------------------------------------------------------
  // parse_name_reserved_committed

  /** The name tokens of a native-memory row: the tokens before the first one
      starting with `reserved`, empty ones dropped, each trimmed. */
  function NameTokens(parts: seq<string>): seq<string>
    decreases |parts|
  {
    if |parts| == 0 || "reserved" <= parts[0] then []
    else if parts[0] == "" then NameTokens(parts[1..])
    else [Trim(parts[0])] + NameTokens(parts[1..])
  }

  /** The region name: the name tokens joined with single spaces. */
  function RegionName(parts: seq<string>): string {
    Join(NameTokens(parts), " ")
  }

  datatype RegionSizes = RegionSizes(name: string, sizes: SizePair)

  lemma NameTokensFrom(parts: seq<string>, i: nat)
    requires i < |parts|
    ensures NameTokens(parts[i..]) ==
      if "reserved" <= parts[i] then []
      else if parts[i] == "" then NameTokens(parts[i + 1..])
      else [Trim(parts[i])] + NameTokens(parts[i + 1..])
  {
    assert parts[i..][1..] == parts[i + 1..];
  }

  /** `parse_name_reserved_committed`: the region name, and the figures of the
      whole token list. The name is always present. */
  function NameReservedCommitted(parts: seq<string>): Result<RegionSizes> {
    match ReservedCommitted(parts)
    case Ok(p) => Ok(RegionSizes(RegionName(parts), p))
    case Err(e) => Err(e)
  }

  method ParseNameReservedCommitted(parts: seq<string>) returns (r: Result<RegionSizes>)
    ensures r == NameReservedCommitted(parts)
  {
    var nameBuffer: seq<string> := [];
    var i := 0;
    while i < |parts|
      invariant 0 <= i <= |parts|
      invariant nameBuffer + NameTokens(parts[i..]) == NameTokens(parts)
    {
      var p := parts[i];
      NameTokensFrom(parts, i);
      if "reserved" <= p {
        break;
      } else if p != "" {
        nameBuffer := nameBuffer + [Trim(p)];
      }
      i := i + 1;
    }
    if i < |parts| {
      NameTokensFrom(parts, i);
    }
    assert nameBuffer == NameTokens(parts);
    var sizes := ParseReservedCommitted(parts);
    if sizes.Err? {
      return sizes.PropagateFailure();
    }
    return Ok(RegionSizes(Join(nameBuffer, " "), sizes.value));
  }

  /** A name written as plain words before the `reserved=` token is read
      back as those words joined with single spaces. */
  lemma {:induction false} RegionNameOfWords(words: seq<string>, rest: seq<string>)
    requires forall k | 0 <= k < |words| :: words[k] != "" && !("reserved" <= words[k])
    requires forall k, m | 0 <= k < |words| && 0 <= m < |words[k]| :: !IsWhitespace(words[k][m])
    requires |rest| >= 1 && "reserved" <= rest[0]
    ensures RegionName(words + rest) == Join(words, " ")
    decreases |words|
  {
    if |words| == 0 {
      assert words + rest == rest;
    } else {
      assert (words + rest)[1..] == words[1..] + rest;
      RegionNameOfWords(words[1..], rest);
      TrimWithoutWhitespace(words[0]);
      assert NameTokens(words + rest) == [words[0]] + NameTokens(words[1..] + rest);
      if |words| > 1 {
        assert NameTokens(words[1..] + rest) != [] by {
          assert NameTokens(words[1..] + rest)[0] == Trim(words[1]);
        }
      } else {
        assert NameTokens(words[1..] + rest) == [] by {
          assert words[1..] + rest == rest;
        }
      }
    }
  }
}
