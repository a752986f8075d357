/** `WindowGen` of the single-genome pipeline: a scaffold is cut into windows of
    a given size at a given stride, each window keeps its parent's id and offsets
    in its own id, and consecutive windows of one scaffold are linked. */
module Windows {
  import opened Common
  import opened Text
  import Links

  /** Slices shorter than this are not kept as windows. */
  const MinWindowLength: nat := 100

  /** A window size or gap as the caller passes it: an integer (a Python 2 `int`, or a `long` when it lies
      outside the `int` range), a float, a string, or a value of another type. */
  datatype Arg = IntArg(i: int) | FloatArg(f: real) | TextArg(text: string) | OtherArg

  /** `sys.maxint` of a 64-bit Python 2: integers beyond it are of type `long`, which `isinstance(x, int)` rejects. */
  const MaxInt: int := 0x7FFF_FFFF_FFFF_FFFF

  /** Whether an integer is a Python 2 `int` rather than a `long`. */
  predicate IsPlainInt(n: int)
  {
    -MaxInt - 1 <= n <= MaxInt
  }

  /** Whether a settled size or gap passes the `isinstance` tests of the `try` block: a float, or an integer
      that is an `int`. */
  predicate IsPlainParam(p: Param)
  {
    p.Proportional? || IsPlainInt(p.bases)
  }

  /** A size or gap once its type is settled: a number of bases (an int) or a proportion of the
      scaffold's length (a float). */
  datatype Param = Absolute(bases: int) | Proportional(fraction: real)

  /** `TypeError` for a size or gap of an unsupported type; `ValueError` for a string that is neither an int
      nor a float literal; `ZeroStride` for the `ValueError` `range` raises when size and gap add up to zero. */
  datatype WindowError = TypeError | ValueError | ZeroStride

  /** The literals Python 2's `int(s)` accepts in base 10: optional surrounding whitespace, an optional sign,
      optional whitespace after the sign, then one or more decimal digits. */
  function ParseIntLiteral(s: string): Option<int>
  {
    StrippedLiteral(Strip(s))
  }

  /** The value of a literal already stripped of its surrounding whitespace. */
  function StrippedLiteral(t: string): Option<int>
  {
    if |t| > 0 && (t[0] == '+' || t[0] == '-') then
      var u := t[1..];
      var d := u[LeadingSpaces(u)..];
      if IsDigits(d) then Some(if t[0] == '-' then 0 - ParseNat(d) else ParseNat(d)) else None
    else if IsDigits(t) then Some(ParseNat(t))
    else None
  }

  /** One or more decimal digits. */
  predicate IsDigits(s: string)
  {
    |s| > 0 && forall i :: 0 <= i < |s| ==> IsDigit(s[i])
  }

  /** `type_convert`: the string as an integer if it is an int literal (a `long` when it is beyond the `int`
      range), otherwise as a float; `parseFloat` is Python's `float(s)`, None where it raises ValueError. */
  function TypeConvert(s: string, parseFloat: string -> Option<real>): Result<Param, WindowError>
  {
    match ParseIntLiteral(s)
    case Some(n) => Ok(Absolute(n))
    case None =>
      match parseFloat(s)
      case Some(f) => Ok(Proportional(f))
      case None => Err(ValueError)
  }

  /** An int literal becomes a number of bases, any other float literal a proportion, and a string that is
      neither is a ValueError. */
  lemma TypeConvertCases(s: string, parseFloat: string -> Option<real>)
    ensures var r := TypeConvert(s, parseFloat);
            && (r.Ok? && r.value.Absolute? <==> ParseIntLiteral(s).Some?)
            && (r.Ok? && r.value.Absolute? ==> ParseIntLiteral(s) == Some(r.value.bases))
            && (r.Ok? && r.value.Proportional? ==> parseFloat(s) == Some(r.value.fraction))
            && (r.Err? <==> ParseIntLiteral(s).None? && parseFloat(s).None?)
            && (r.Err? ==> r.error == ValueError)
  {
  }

  /** An integer written out in decimal converts back to that integer of bases, whatever `float` does. */
  lemma TypeConvertIntString(n: int, parseFloat: string -> Option<real>)
    ensures TypeConvert(IntToString(n), parseFloat) == Ok(Absolute(n))
  {
    var s := IntToString(n);
    assert |s| > 0 && !IsSpace(s[0]) && !IsSpace(s[|s| - 1]);
    StripUnpadded(s);
    IntStringLiteral(n);
  }

  lemma IntStringLiteral(n: int)
    ensures StrippedLiteral(IntToString(n)) == Some(n)
  {
    var m: nat := if n < 0 then -n else n;
    var digits := NatToString(m);
    ParseNatToString(m);
    if n < 0 {
      assert IntToString(n) == ['-'] + "" + digits;
      SignedStripped('-', "", digits);
    } else {
      assert IntToString(n) == digits;
      UnsignedStripped(digits);
    }
  }

  /** Digits alone read as their value. */
  lemma UnsignedStripped(digits: string)
    requires IsDigits(digits)
    ensures StrippedLiteral(digits) == Some(ParseNat(digits))
  {
    assert IsDigit(digits[0]);
  }

  /** A sign, whitespace and digits read as the signed value of the digits. */
  lemma SignedStripped(sign: char, spaces: string, digits: string)
    requires sign == '+' || sign == '-'
    requires forall k :: 0 <= k < |spaces| ==> IsSpace(spaces[k])
    requires IsDigits(digits)
    ensures StrippedLiteral([sign] + spaces + digits)
            == Some(if sign == '-' then 0 - ParseNat(digits) else ParseNat(digits))
  {
    var t := [sign] + spaces + digits;
    assert t[0] == sign;
    assert t[1..] == spaces + digits;
    SpacedDigits(spaces, digits);
  }

  /** Python 2 also skips whitespace between the sign and the digits: `"+ 100"` is 100 and `"- 5"` is -5,
      and leading zeros are read in base 10. */
  lemma TypeConvertSpacedSign(spaces: string, digits: string, parseFloat: string -> Option<real>)
    requires forall k :: 0 <= k < |spaces| ==> IsSpace(spaces[k])
    requires IsDigits(digits)
    ensures TypeConvert("+" + spaces + digits, parseFloat) == Ok(Absolute(ParseNat(digits)))
    ensures TypeConvert("-" + spaces + digits, parseFloat) == Ok(Absolute(0 - ParseNat(digits)))
  {
    SpacedSignLiteral('+', spaces, digits);
    SpacedSignLiteral('-', spaces, digits);
  }

  lemma SpacedSignLiteral(sign: char, spaces: string, digits: string)
    requires sign == '+' || sign == '-'
    requires forall k :: 0 <= k < |spaces| ==> IsSpace(spaces[k])
    requires IsDigits(digits)
    ensures ParseIntLiteral([sign] + spaces + digits)
            == Some(if sign == '-' then 0 - ParseNat(digits) else ParseNat(digits))
  {
    var s := [sign] + spaces + digits;
    assert s[|s| - 1] == digits[|digits| - 1];
    StripUnpadded(s);
    SignedStripped(sign, spaces, digits);
  }

  lemma SpacedDigits(spaces: string, digits: string)
    requires forall k :: 0 <= k < |spaces| ==> IsSpace(spaces[k])
    requires |digits| > 0 && !IsSpace(digits[0])
    ensures var u := spaces + digits; LeadingSpaces(u) == |spaces| && u[|spaces|..] == digits
  {
    var u := spaces + digits;
    assert u[|spaces|] == digits[0];
    assert forall k :: 0 <= k < |spaces| ==> u[k] == spaces[k];
  }

  /** The type test `make_windows` applies to a size or gap, converting strings with `type_convert`: a `long`
      passed in is neither an `int` nor a float and is a TypeError. */
  function ToParam(a: Arg, parseFloat: string -> Option<real>): Result<Param, WindowError>
  {
    match a
    case IntArg(n) => if IsPlainInt(n) then Ok(Absolute(n)) else Err(TypeError)
    case FloatArg(f) => Ok(Proportional(f))
    case TextArg(t) => TypeConvert(t, parseFloat)
    case OtherArg => Err(TypeError)
  }

  /** Only a value that is neither an int, a float nor a string is a TypeError, a `long` included; ints and
      floats are taken as they are, and a string that is no number is a ValueError. */
  lemma ToParamCases(a: Arg, parseFloat: string -> Option<real>)
    ensures ToParam(a, parseFloat) == Err(TypeError) <==> a.OtherArg? || (a.IntArg? && !IsPlainInt(a.i))
    ensures a.IntArg? && IsPlainInt(a.i) ==> ToParam(a, parseFloat) == Ok(Absolute(a.i))
    ensures a.FloatArg? ==> ToParam(a, parseFloat) == Ok(Proportional(a.f))
    ensures ToParam(a, parseFloat).Err? && !a.OtherArg? && !a.IntArg? ==> a.TextArg? && ToParam(a, parseFloat) == Err(ValueError)
  {
    if a.TextArg? {
      TypeConvertCases(a.text, parseFloat);
    }
  }

  /** Python's `int(x)` on a float: truncation toward zero. */
  function Truncate(x: real): (n: int)
    ensures x >= 0.0 ==> n as real <= x < n as real + 1.0
    ensures x < 0.0 ==> n as real - 1.0 < x <= n as real
  {
    if x >= 0.0 then x.Floor else -((-x).Floor)
  }

  /** The number of bases a size or gap stands for on a sequence of `len` bases. */
  function Length(p: Param, len: nat): int
  {
    match p
    case Absolute(n) => n
    case Proportional(f) => Truncate(f * len as real)
  }

  /** The window length and the stride (window length plus gap) used on a sequence of `len` bases;
      a stride of zero is the error `range` raises. */
  function Layout(windowSize: Param, windowGap: Param, len: nat): (r: Result<(int, int), WindowError>)
    ensures r.Err? <==> Length(windowSize, len) + Length(windowGap, len) == 0
    ensures r.Err? ==> r.error == ZeroStride
    ensures r.Ok? ==> r.value == (Length(windowSize, len), Length(windowSize, len) + Length(windowGap, len))
  {
    var ws := Length(windowSize, len);
    var gap := Length(windowGap, len);
    if ws + gap == 0 then Err(ZeroStride) else Ok((ws, ws + gap))
  }

  /** A Python slice bound: negative values count from the end, values beyond either end are clamped. */
  function Clamp(i: int, len: nat): (k: nat)
    ensures k <= len
  {
    if i < 0 then (if len + i < 0 then 0 else len + i) else if i > len then len else i
  }

  /** Python's `s[i:j]`. */
  function PySlice(s: string, i: int, j: int): string
  {
    var a := Clamp(i, |s|);
    var b := Clamp(j, |s|);
    if a <= b then s[a..b] else ""
  }

  /** `"{0}:{1}to{2}".format(seq_id, start, end)`. */
  function WindowId(seqId: string, start: int, end: int): string
  {
    seqId + ":" + IntToString(start) + "to" + IntToString(end)
  }

  /** Reads a window id back into its parent id and its two offsets. */
  function ParseWindowId(id: string): Option<(string, int, int)>
  {
    match SplitLast(id, ':')
    case None => None
    case Some(p) =>
      var halves := Split(p.1, 't');
      if |halves| == 2 && |halves[1]| > 0 && halves[1][0] == 'o' then
        match (ParseInt(halves[0]), ParseInt(halves[1][1..]))
        case (Some(start), Some(end)) => Some((p.0, start, end))
        case _ => None
      else None
  }

  /** The parent scaffold named in a window id. */
  function ParentOf(id: string): Option<string>
  {
    match ParseWindowId(id)
    case None => None
    case Some(t) => Some(t.0)
  }

  /** A window id gives back the parent id and the offsets it was made from, whatever characters the parent id holds. */
  lemma WindowIdRoundTrip(seqId: string, start: int, end: int)
    ensures ParseWindowId(WindowId(seqId, start, end)) == Some((seqId, start, end))
  {
    ParseIntToString(start);
    ParseIntToString(end);
    ParseComposedId(seqId, IntToString(start), IntToString(end), start, end);
  }

  /** The round trip for any two offset texts made of digits and minus signs that read back as numbers. */
  lemma ParseComposedId(seqId: string, a: string, b: string, start: int, end: int)
    requires forall i :: 0 <= i < |a| ==> IsDigit(a[i]) || a[i] == '-'
    requires forall i :: 0 <= i < |b| ==> IsDigit(b[i]) || b[i] == '-'
    requires ParseInt(a) == Some(start) && ParseInt(b) == Some(end)
    ensures ParseWindowId(seqId + ":" + a + "to" + b) == Some((seqId, start, end))
  {
    var offsets := a + "to" + b;
    assert seqId + ":" + a + "to" + b == seqId + [':'] + offsets;
    assert ':' !in offsets by {
      assert forall i :: 0 <= i < |offsets| ==> offsets[i] in a || offsets[i] in "to" || offsets[i] in b;
    }
    SplitLastAt(seqId, offsets, ':');
    assert 't' !in "o" + b by {
      assert forall i :: 0 <= i < |"o" + b| ==> ("o" + b)[i] == 'o' || ("o" + b)[i] in b;
    }
    assert offsets == a + ['t'] + ("o" + b);
    SplitAtLast(a, "o" + b, 't');
    SplitWithoutSeparator(a, 't');
    assert ("o" + b)[1..] == b;
  }

  /** The starts, from `i` on in steps of `stride` and below the sequence's length, whose slice is long enough to keep. */
  function KeptStarts(sequence: string, ws: int, stride: int, i: nat): seq<nat>
    requires stride > 0
    decreases |sequence| - i
  {
    if i >= |sequence| then []
    else (if Keeps(sequence, i, ws) then [i] else []) + KeptStarts(sequence, ws, stride, i + stride)
  }

  /** Whether the slice of `ws` bases from `i` is long enough to keep. */
  predicate Keeps(sequence: string, i: int, ws: int)
  {
    SliceLength(|sequence|, i, i + ws) >= MinWindowLength
  }

  /** The length of `s[i:j]` on a sequence of `len` elements, from the clamped bounds alone. */
  function SliceLength(len: nat, i: int, j: int): nat
  {
    var a := Clamp(i, len);
    var b := Clamp(j, len);
    if a <= b then b - a else 0
  }

  lemma PySliceLength(s: string, i: int, j: int)
    ensures |PySlice(s, i, j)| == SliceLength(|s|, i, j)
  {
  }

  /** What `make_windows` returns: window ids and window sequences, position by position. */
  datatype Windows = Windows(ids: seq<string>, seqs: seq<string>)

  /** The windows of length `ws` taken every `stride` bases; a negative stride gives an empty `range`. */
  function Slide(seqId: string, sequence: string, ws: int, stride: int): (w: Windows)
    ensures |w.ids| == |w.seqs|
  {
    if stride <= 0 then Windows([], [])
    else
      var starts := KeptStarts(sequence, ws, stride, 0);
      Windows(WindowIds(seqId, |sequence|, ws, starts), WindowSeqs(sequence, ws, starts))
  }

  /** The ids of the windows of length `ws` at the given starts on a sequence of `len` bases. */
  function WindowIds(seqId: string, len: nat, ws: int, starts: seq<nat>): (ids: seq<string>)
    ensures |ids| == |starts|
  {
    seq(|starts|, k requires 0 <= k < |starts| => WindowId(seqId, starts[k], Min(starts[k] + ws, len)))
  }

  /** The slices of length `ws` at the given starts. */
  function WindowSeqs(sequence: string, ws: int, starts: seq<nat>): (seqs: seq<string>)
    ensures |seqs| == |starts|
  {
    seq(|starts|, k requires 0 <= k < |starts| => PySlice(sequence, starts[k], starts[k] + ws))
  }

  lemma WindowIdsAppend(seqId: string, len: nat, ws: int, starts: seq<nat>, i: nat)
    ensures WindowIds(seqId, len, ws, starts + [i]) == WindowIds(seqId, len, ws, starts) + [WindowId(seqId, i, Min(i + ws, len))]
  {
  }

  lemma WindowSeqsAppend(sequence: string, ws: int, starts: seq<nat>, i: nat)
    ensures WindowSeqs(sequence, ws, starts + [i]) == WindowSeqs(sequence, ws, starts) + [PySlice(sequence, i, i + ws)]
  {
  }

  /** The result of `make_windows([seq_id, sequence], window_size, window_gap)`: the size is checked and
      converted before the gap, and the windows are cut once both are known. */
  function Windowing(seqId: string, sequence: string, windowSize: Arg, windowGap: Arg,
                     parseFloat: string -> Option<real>): (r: Result<Windows, WindowError>)
    ensures r.Ok? ==> |r.value.ids| == |r.value.seqs|
  {
    match ToParam(windowSize, parseFloat)
    case Err(e) => Err(e)
    case Ok(size) =>
      match ToParam(windowGap, parseFloat)
      case Err(e) => Err(e)
      case Ok(gap) =>
        Cut(seqId, sequence, size, gap)
  }

  /** The windows cut once the size and the gap are known: the `try` block of `make_windows`, whose type
      tests reject a `long` that a string converted to. */
  function Cut(seqId: string, sequence: string, size: Param, gap: Param): (r: Result<Windows, WindowError>)
    ensures r.Ok? ==> |r.value.ids| == |r.value.seqs|
  {
    if !IsPlainParam(size) || !IsPlainParam(gap) then Err(TypeError)
    else
    match Layout(size, gap, |sequence|)
    case Err(e) => Err(e)
    case Ok(l) => Ok(Slide(seqId, sequence, l.0, l.1))
  }

  /** `make_windows`: settles the types of size and gap, then slides a window across the sequence and keeps
      the slices of at least 100 bases. */
  method MakeWindows(seqId: string, sequence: string, windowSize: Arg, windowGap: Arg,
                     parseFloat: string -> Option<real>)
    returns (r: Result<Windows, WindowError>)
    ensures r == Windowing(seqId, sequence, windowSize, windowGap, parseFloat)
  {
    var size := ToParam(windowSize, parseFloat);
    if size.Err? {
      return Err(size.error);
    }
    var gap := ToParam(windowGap, parseFloat);
    if gap.Err? {
      return Err(gap.error);
    }
    r := CutWindows(seqId, sequence, size.value, gap.value);
  }

  /** The `try` block of `make_windows`: sizes given as proportions are converted against the sequence's
      length, and the windows are cut. */
  method CutWindows(seqId: string, sequence: string, size: Param, gap: Param) returns (r: Result<Windows, WindowError>)
    ensures r == Cut(seqId, sequence, size, gap)
  {
    if !IsPlainParam(size) || !IsPlainParam(gap) {
      return Err(TypeError);
    }
    var len := |sequence|;
    var ws := Length(size, len);
    var stride := ws + Length(gap, len);
    if stride == 0 {
      return Err(ZeroStride);
    }
    var w := SlideWindowsLoop(seqId, sequence, ws, stride);
    return Ok(w);
  }

  /** The loop of `make_windows` over `range(0, len(sequence), stride)`. */
  method SlideWindowsLoop(seqId: string, sequence: string, ws: int, stride: int) returns (w: Windows)
    ensures w == Slide(seqId, sequence, ws, stride)
  {
    var len := |sequence|;
    var ids: seq<string> := [];
    var seqs: seq<string> := [];
    if stride > 0 {
      var i: nat := 0;
      ghost var kept: seq<nat> := [];
      while i < len
        invariant kept + KeptStarts(sequence, ws, stride, i) == KeptStarts(sequence, ws, stride, 0)
        invariant ids == WindowIds(seqId, len, ws, kept)
        invariant seqs == WindowSeqs(sequence, ws, kept)
        decreases len - i
      {
        ids, seqs, kept := SlideStep(seqId, sequence, ws, stride, i, ids, seqs, kept);
        i := i + stride;
      }
      assert KeptStarts(sequence, ws, stride, i) == [];
      assert kept == KeptStarts(sequence, ws, stride, 0);
    }
    w := Windows(ids, seqs);
  }

  /** One pass of the loop of `make_windows`: the window at `i` is kept when it has at least 100 bases. */
  method SlideStep(seqId: string, sequence: string, ws: int, stride: int, i: nat,
                   ids: seq<string>, seqs: seq<string>, ghost kept: seq<nat>)
    returns (ids': seq<string>, seqs': seq<string>, ghost kept': seq<nat>)
    requires stride > 0 && i < |sequence|
    requires kept + KeptStarts(sequence, ws, stride, i) == KeptStarts(sequence, ws, stride, 0)
    requires ids == WindowIds(seqId, |sequence|, ws, kept) && seqs == WindowSeqs(sequence, ws, kept)
    ensures kept' == if Keeps(sequence, i, ws) then kept + [i] else kept
    ensures kept' + KeptStarts(sequence, ws, stride, i + stride) == KeptStarts(sequence, ws, stride, 0)
    ensures ids' == WindowIds(seqId, |sequence|, ws, kept') && seqs' == WindowSeqs(sequence, ws, kept')
  {
    var window := PySlice(sequence, i, i + ws);
    KeptStartsStep(sequence, ws, stride, kept, i);
    if |window| >= MinWindowLength {
      WindowIdsAppend(seqId, |sequence|, ws, kept, i);
      WindowSeqsAppend(sequence, ws, kept, i);
      ids' := ids + [WindowId(seqId, i, Min(i + ws, |sequence|))];
      seqs' := seqs + [window];
      kept' := kept + [i];
    } else {
      ids', seqs', kept' := ids, seqs, kept;
    }
  }

  /** One step of the loop: the start `i` is kept exactly when its slice is long enough. */
  lemma KeptStartsStep(sequence: string, ws: int, stride: int, kept: seq<nat>, i: nat)
    requires stride > 0 && i < |sequence|
    requires kept + KeptStarts(sequence, ws, stride, i) == KeptStarts(sequence, ws, stride, 0)
    ensures (if Keeps(sequence, i, ws) then kept + [i] else kept) + KeptStarts(sequence, ws, stride, i + stride)
            == KeptStarts(sequence, ws, stride, 0)
  {
    var rest := KeptStarts(sequence, ws, stride, i + stride);
    if Keeps(sequence, i, ws) {
      assert kept + [i] + rest == kept + ([i] + rest);
    } else {
      assert [] + rest == rest;
    }
  }

  /** `x` is one of `i, i + stride, i + 2 * stride, ...`. */
  predicate OnGrid(x: int, i: int, stride: int)
    requires stride > 0
    decreases x - i
  {
    x >= i && (x == i || OnGrid(x, i + stride, stride))
  }

  /** The kept starts are exactly the grid points below the length whose slice has at least 100 bases. */
  lemma {:induction false} KeptStartsExact(sequence: string, ws: int, stride: int, i: nat, x: int)
    requires stride > 0
    ensures x in KeptStarts(sequence, ws, stride, i) <==>
            x < |sequence| && OnGrid(x, i, stride) && Keeps(sequence, x, ws)
    decreases |sequence| - i
  {
    if i < |sequence| {
      var keep := Keeps(sequence, i, ws);
      var head: seq<nat> := if keep then [i] else [];
      var rest := KeptStarts(sequence, ws, stride, i + stride);
      assert KeptStarts(sequence, ws, stride, i) == head + rest;
      KeptStartsExact(sequence, ws, stride, i + stride, x);
      var gridNext := OnGrid(x, i + stride, stride);
      if gridNext {
        GridAbove(x, i + stride, stride);
      }
      HeadRestMember(x, i, |sequence|, keep, Keeps(sequence, x, ws), gridNext, OnGrid(x, i, stride), head, rest);
    } else {
      if OnGrid(x, i, stride) {
        GridAbove(x, i, stride);
      }
    }
  }

  /** One step of `KeptStartsExact`, with the tests it combines as plain truth values. */
  lemma HeadRestMember(x: int, i: nat, len: nat, keep: bool, keepX: bool, gridNext: bool, grid: bool,
                       head: seq<nat>, rest: seq<nat>)
    requires i < len && head == (if keep then [i] else [])
    requires x == i ==> keepX == keep
    requires x in rest <==> x < len && gridNext && keepX
    requires grid <==> x >= i && (x == i || gridNext)
    requires gridNext ==> x > i
    ensures x in head + rest <==> x < len && grid && keepX
  {
    assert x in head + rest <==> x in head || x in rest;
  }

  lemma {:induction false} GridAbove(x: int, i: int, stride: int)
    requires stride > 0 && OnGrid(x, i, stride)
    ensures x >= i
  {
  }

  /** The grid from `i` is the set of points at a multiple of the stride from `i`. */
  lemma {:induction false} OnGridModulo(x: int, i: int, stride: int)
    requires stride > 0
    ensures OnGrid(x, i, stride) <==> x >= i && (x - i) % stride == 0
    decreases x - i
  {
    if x == i {
      ModUnique(0, stride, 0, 0);
    } else if x > i {
      OnGridModulo(x, i + stride, stride);
      StepModulo(x - i, stride);
      assert x - (i + stride) == x - i - stride;
    }
  }

  /** Removing one stride from a difference does not change whether the stride divides it; a positive
      difference below the stride is not divisible. */
  lemma StepModulo(d: int, stride: int)
    requires stride > 0
    ensures d % stride == 0 <==> (d - stride) % stride == 0
    ensures 0 < d < stride ==> d % stride != 0
  {
    var q := d / stride;
    var r := d % stride;
    assert d - stride == (q - 1) * stride + r;
    ModUnique(d - stride, stride, q - 1, r);
    if 0 < d < stride {
      ModUnique(d, stride, 0, d);
    }
  }

  /** Euclidean division has one quotient and one remainder. */
  lemma ModUnique(d: int, stride: int, q: int, r: int)
    requires stride > 0 && 0 <= r < stride && d == q * stride + r
    ensures d % stride == r
  {
    var q2 := d / stride;
    var r2 := d % stride;
    assert d == q2 * stride + r2;
    assert (q - q2) * stride == r2 - r;
    if q - q2 >= 1 {
      MultipleAtLeast(q - q2, stride);
    }
    if q2 - q >= 1 {
      MultipleAtLeast(q2 - q, stride);
    }
  }

  lemma MultipleAtLeast(a: int, b: int)
    requires a >= 1 && b > 0
    ensures a * b >= b
  {
  }

  /** The kept starts come in increasing order, all at or after `i`. */
  lemma {:induction false} KeptStartsIncreasing(sequence: string, ws: int, stride: int, i: nat)
    requires stride > 0
    ensures forall a, b :: 0 <= a < b < |KeptStarts(sequence, ws, stride, i)| ==>
              KeptStarts(sequence, ws, stride, i)[a] < KeptStarts(sequence, ws, stride, i)[b]
    ensures forall a :: 0 <= a < |KeptStarts(sequence, ws, stride, i)| ==> KeptStarts(sequence, ws, stride, i)[a] >= i
    decreases |sequence| - i
  {
    if i < |sequence| {
      KeptStartsIncreasing(sequence, ws, stride, i + stride);
      var rest := KeptStarts(sequence, ws, stride, i + stride);
      var head: seq<nat> := if Keeps(sequence, i, ws) then [i] else [];
      assert KeptStarts(sequence, ws, stride, i) == head + rest;
      PrependIncreasing(head, i, rest);
    }
  }

  /** Putting `head`, empty or `[x]`, before increasing starts above `x` keeps them increasing and at least `x`. */
  lemma PrependIncreasing(head: seq<nat>, x: nat, rest: seq<nat>)
    requires head == [] || head == [x]
    requires forall a, b :: 0 <= a < b < |rest| ==> rest[a] < rest[b]
    requires forall a :: 0 <= a < |rest| ==> rest[a] > x
    ensures forall a, b :: 0 <= a < b < |head + rest| ==> (head + rest)[a] < (head + rest)[b]
    ensures forall a :: 0 <= a < |head + rest| ==> (head + rest)[a] >= x
  {
    var ks := head + rest;
    forall a | 0 <= a < |ks|
      ensures ks[a] >= x && (a >= |head| ==> ks[a] == rest[a - |head|])
    {
    }
  }

  /** With a non-negative window length a slice from inside the sequence is the plain subsequence up to the clamped end. */
  lemma SliceFromStart(s: string, i: nat, ws: int)
    requires i < |s| && ws >= 0
    ensures PySlice(s, i, i + ws) == s[i..Min(i + ws, |s|)]
    ensures |PySlice(s, i, i + ws)| <= ws
  {
  }

  /** Every kept window starts on the grid of the stride inside the sequence, is
      `sequence[start:min(start + ws, len)]` and has between 100 and `ws` bases. */
  lemma SlideWindowSequence(seqId: string, sequence: string, ws: int, stride: int, k: nat)
    requires ws >= 0 && stride > 0
    requires k < |KeptStarts(sequence, ws, stride, 0)|
    ensures var start := KeptStarts(sequence, ws, stride, 0)[k];
            var w := Slide(seqId, sequence, ws, stride);
            && OnGrid(start, 0, stride) && start < |sequence|
            && w.seqs[k] == sequence[start..Min(start + ws, |sequence|)]
            && MinWindowLength <= |w.seqs[k]| <= ws
  {
    var starts := KeptStarts(sequence, ws, stride, 0);
    assert Slide(seqId, sequence, ws, stride).seqs == WindowSeqs(sequence, ws, starts);
    KeptStartsElement(sequence, ws, stride, k);
    WindowSeqsShape(sequence, ws, starts, k);
  }

  /** The id of every kept window reads back as the parent id with the window's start and end. */
  lemma SlideWindowId(seqId: string, sequence: string, ws: int, stride: int, k: nat)
    requires stride > 0
    requires k < |KeptStarts(sequence, ws, stride, 0)|
    ensures var start := KeptStarts(sequence, ws, stride, 0)[k];
            ParseWindowId(Slide(seqId, sequence, ws, stride).ids[k]) == Some((seqId, start as int, Min(start + ws, |sequence|)))
  {
    var starts := KeptStarts(sequence, ws, stride, 0);
    assert Slide(seqId, sequence, ws, stride).ids == WindowIds(seqId, |sequence|, ws, starts);
    WindowIdsParse(seqId, |sequence|, ws, starts, k);
  }

  /** A negative window length counts back from the end of the sequence: a window is kept only from a start
      closer to the beginning than `-ws`, it runs from that start to `ws` bases before the sequence's end
      shifted by the start, and its id ends on the negative offset `start + ws`. */
  lemma SlideNegativeLength(seqId: string, sequence: string, ws: int, stride: int, k: nat)
    requires ws < 0 && stride > 0
    requires k < |KeptStarts(sequence, ws, stride, 0)|
    ensures var start := KeptStarts(sequence, ws, stride, 0)[k];
            var w := Slide(seqId, sequence, ws, stride);
            && start + ws < 0 && start <= |sequence| + start + ws
            && w.seqs[k] == sequence[start..|sequence| + start + ws]
            && w.ids[k] == WindowId(seqId, start, start + ws)
  {
    var starts := KeptStarts(sequence, ws, stride, 0);
    KeptStartsElement(sequence, ws, stride, k);
    assert Slide(seqId, sequence, ws, stride).seqs == WindowSeqs(sequence, ws, starts);
    assert Slide(seqId, sequence, ws, stride).ids == WindowIds(seqId, |sequence|, ws, starts);
  }

  lemma KeptStartsElement(sequence: string, ws: int, stride: int, k: nat)
    requires stride > 0 && k < |KeptStarts(sequence, ws, stride, 0)|
    ensures var x := KeptStarts(sequence, ws, stride, 0)[k];
            x < |sequence| && OnGrid(x, 0, stride) && Keeps(sequence, x, ws)
  {
    var starts := KeptStarts(sequence, ws, stride, 0);
    assert starts[k] in starts;
    KeptStartsExact(sequence, ws, stride, 0, starts[k]);
  }

  lemma WindowSeqsShape(sequence: string, ws: int, starts: seq<nat>, k: nat)
    requires ws >= 0 && k < |starts| && starts[k] < |sequence| && Keeps(sequence, starts[k], ws)
    ensures WindowSeqs(sequence, ws, starts)[k] == sequence[starts[k]..Min(starts[k] + ws, |sequence|)]
    ensures MinWindowLength <= |WindowSeqs(sequence, ws, starts)[k]| <= ws
  {
    SliceFromStart(sequence, starts[k], ws);
  }

  /** Every window id names the scaffold it was cut from. */
  lemma SlideParents(seqId: string, sequence: string, ws: int, stride: int)
    ensures var w := Slide(seqId, sequence, ws, stride);
            |w.ids| == |w.seqs| && forall k :: 0 <= k < |w.ids| ==> ParentOf(w.ids[k]) == Some(seqId)
  {
    var w := Slide(seqId, sequence, ws, stride);
    if stride > 0 {
      var starts := KeptStarts(sequence, ws, stride, 0);
      forall k | 0 <= k < |w.ids|
        ensures ParentOf(w.ids[k]) == Some(seqId)
      {
        assert w.ids[k] == WindowId(seqId, starts[k], Min(starts[k] + ws, |sequence|));
        WindowIdRoundTrip(seqId, starts[k], Min(starts[k] + ws, |sequence|));
      }
    }
  }

  lemma WindowingParents(seqId: string, sequence: string, windowSize: Arg, windowGap: Arg,
                         parseFloat: string -> Option<real>)
    requires Windowing(seqId, sequence, windowSize, windowGap, parseFloat).Ok?
    ensures var w := Windowing(seqId, sequence, windowSize, windowGap, parseFloat).value;
            |w.ids| == |w.seqs| && forall k :: 0 <= k < |w.ids| ==> ParentOf(w.ids[k]) == Some(seqId)
  {
    var size := ToParam(windowSize, parseFloat).value;
    var gap := ToParam(windowGap, parseFloat).value;
    var l := Layout(size, gap, |sequence|).value;
    SlideParents(seqId, sequence, l.0, l.1);
  }

  /** The error `make_windows` raises: a size of another type or a `long` size is a TypeError, checked before
      anything else; a `long` a string converted to is a TypeError once both are converted; otherwise a string
      that is no number is a ValueError, and a zero stride is the error of `range`. */
  lemma WindowingErrors(seqId: string, sequence: string, windowSize: Arg, windowGap: Arg,
                        parseFloat: string -> Option<real>)
    ensures windowSize.OtherArg? || (windowSize.IntArg? && !IsPlainInt(windowSize.i)) ==>
              Windowing(seqId, sequence, windowSize, windowGap, parseFloat) == Err(TypeError)
    ensures ToParam(windowSize, parseFloat).Ok? && ToParam(windowGap, parseFloat).Ok? &&
            (!IsPlainParam(ToParam(windowSize, parseFloat).value) || !IsPlainParam(ToParam(windowGap, parseFloat).value)) ==>
              Windowing(seqId, sequence, windowSize, windowGap, parseFloat) == Err(TypeError)
    ensures (windowSize.FloatArg? || (windowSize.IntArg? && IsPlainInt(windowSize.i))) &&
            (windowGap.FloatArg? || (windowGap.IntArg? && IsPlainInt(windowGap.i))) ==>
              (Windowing(seqId, sequence, windowSize, windowGap, parseFloat).Err? <==>
               Length(ToParam(windowSize, parseFloat).value, |sequence|)
               + Length(ToParam(windowGap, parseFloat).value, |sequence|) == 0)
    ensures Windowing(seqId, sequence, windowSize, windowGap, parseFloat) == Err(ValueError) ==>
              windowSize.TextArg? || windowGap.TextArg?
  {
  }

  /** A decimal integer beyond `sys.maxint` given as the size converts to a `long`, which the `try` block rejects. */
  lemma LongLiteralSize(seqId: string, sequence: string, n: int, windowGap: Arg, parseFloat: string -> Option<real>)
    requires n > MaxInt
    requires ToParam(windowGap, parseFloat).Ok?
    ensures Windowing(seqId, sequence, TextArg(IntToString(n)), windowGap, parseFloat) == Err(TypeError)
  {
    TypeConvertIntString(n, parseFloat);
  }

  /** A proportional size is converted against the length of the scaffold at hand: a non-negative fraction gives
      the whole bases of `f * len`, at most `len` for a fraction up to one, and a negative one truncates toward
      zero. */
  lemma ProportionalSize(f: real, len: nat)
    ensures var n := Length(Proportional(f), len);
            && (f >= 0.0 ==> 0 <= n && n as real <= f * len as real < n as real + 1.0)
            && (0.0 <= f <= 1.0 ==> n <= len)
            && (f < 0.0 ==> n <= 0 && f * len as real <= n as real < f * len as real + 1.0)
  {
    if 0.0 <= f <= 1.0 {
      assert f * len as real <= 1.0 * len as real;
    }
  }

  /** The same conversion on a few lengths. */
  lemma ProportionalSizeExamples()
    ensures Length(Proportional(0.5), 1000) == 500
    ensures Length(Proportional(0.5), 2000) == 1000
    ensures Length(Proportional(-0.25), 10) == -2
  {
  }

  /** With windows of 100 bases and no gap, there are `len / 100` windows of exactly 100 bases: the trailing
      `len % 100` bases are dropped. */
  lemma {:induction false} HundredBaseStarts(sequence: string, i: nat)
    requires i <= |sequence| && i % 100 == 0
    ensures |KeptStarts(sequence, 100, 100, i)| == (|sequence| - i) / 100
    ensures forall x :: x in KeptStarts(sequence, 100, 100, i) ==> x + 100 <= |sequence|
    decreases |sequence| - i
  {
    if i < |sequence| {
      if i + 100 <= |sequence| {
        HundredBaseStarts(sequence, i + 100);
      } else {
        assert KeptStarts(sequence, 100, 100, i + 100) == [];
      }
    }
  }

  lemma FixedHundredBaseWindows(seqId: string, sequence: string, parseFloat: string -> Option<real>)
    ensures Windowing(seqId, sequence, IntArg(100), IntArg(0), parseFloat).Ok?
    ensures var w := Windowing(seqId, sequence, IntArg(100), IntArg(0), parseFloat).value;
            |w.seqs| == |sequence| / 100 && forall k :: 0 <= k < |w.seqs| ==> |w.seqs[k]| == 100
  {
    HundredBaseStarts(sequence, 0);
    var starts := KeptStarts(sequence, 100, 100, 0);
    forall k | 0 <= k < |starts|
      ensures |PySlice(sequence, starts[k], starts[k] + 100)| == 100
    {
      assert starts[k] in starts;
    }
  }

  /** The name of the window file: the scaffold file's name with its dots before the last one removed and
      "windows." put before the last part, in the output directory. */
  function WindowFileName(scaffoldFile: string, outputDir: string): string
  {
    var parts := Split(Basename(scaffoldFile), '.');
    PathJoin(outputDir, Concat(parts[..|parts| - 1]) + "windows." + parts[|parts| - 1])
  }

  /** "a.b.fna" becomes "abwindows.fna": the stem loses its dots, the extension stays. */
  lemma WindowFileNameWithExtension(scaffoldFile: string, outputDir: string, stem: string, ext: string)
    requires Basename(scaffoldFile) == stem + "." + ext && '.' !in ext
    ensures WindowFileName(scaffoldFile, outputDir) == PathJoin(outputDir, Remove(stem, '.') + "windows." + ext)
  {
    assert stem + "." + ext == stem + ['.'] + ext;
    SplitAtLast(stem, ext, '.');
    var parts := Split(Basename(scaffoldFile), '.');
    assert parts[..|parts| - 1] == Split(stem, '.');
    ConcatSplit(stem, '.');
  }

  /** A name without a dot is all extension: "scaffolds" becomes "windows.scaffolds". */
  lemma WindowFileNameWithoutDot(scaffoldFile: string, outputDir: string)
    requires '.' !in Basename(scaffoldFile)
    ensures WindowFileName(scaffoldFile, outputDir) == PathJoin(outputDir, "windows." + Basename(scaffoldFile))
  {
    var name := Basename(scaffoldFile);
    SplitWithoutSeparator(name, '.');
    var parts := Split(name, '.');
    assert parts[..|parts| - 1] == [];
    assert Concat(parts[..|parts| - 1]) + "windows." + parts[|parts| - 1] == "windows." + name;
  }

  /** `window_dict[win_id[i]] = seq_win[i]` for the windows of one scaffold, in order. */
  function AddWindows(m: map<string, string>, ids: seq<string>, seqs: seq<string>): map<string, string>
    requires |ids| == |seqs|
    decreases |ids|
  {
    if |ids| == 0 then m
    else AddWindows(m, ids[..|ids| - 1], seqs[..|seqs| - 1])[ids[|ids| - 1] := seqs[|seqs| - 1]]
  }

  /** The windows added are stored under their ids; all other entries are left as they were. */
  lemma {:induction false} AddWindowsKeys(m: map<string, string>, ids: seq<string>, seqs: seq<string>)
    requires |ids| == |seqs|
    ensures forall x :: x in AddWindows(m, ids, seqs) <==> x in m || x in ids
    ensures forall x :: x in m && x !in ids ==> AddWindows(m, ids, seqs)[x] == m[x]
    decreases |ids|
  {
    if |ids| > 0 {
      var n := |ids| - 1;
      AddWindowsKeys(m, ids[..n], seqs[..n]);
      assert ids == ids[..n] + [ids[n]];
    }
  }

  /** Every window id added holds the sequence of the last window with that id, as repeated assignments to
      `window_dict[id]` leave it. */
  lemma AddWindowsStored(m: map<string, string>, ids: seq<string>, seqs: seq<string>)
    requires |ids| == |seqs|
    ensures forall x :: x in ids ==>
              (x in AddWindows(m, ids, seqs) &&
               exists k :: 0 <= k < |ids| && ids[k] == x && AddWindows(m, ids, seqs)[x] == seqs[k]
                           && forall k' :: k < k' < |ids| ==> ids[k'] != x)
  {
    forall x | x in ids
      ensures x in AddWindows(m, ids, seqs) &&
              exists k :: LastAt(ids, k, x) && AddWindows(m, ids, seqs)[x] == seqs[k]
    {
      AddWindowsLastAt(m, ids, seqs, x);
    }
  }

  /** Position `k` holds the last occurrence of `x`. */
  predicate LastAt(ids: seq<string>, k: int, x: string)
  {
    0 <= k < |ids| && ids[k] == x && forall k' :: k < k' < |ids| ==> ids[k'] != x
  }

  lemma {:induction false} AddWindowsLastAt(m: map<string, string>, ids: seq<string>, seqs: seq<string>, x: string)
    requires |ids| == |seqs| && x in ids
    ensures x in AddWindows(m, ids, seqs) && exists k :: LastAt(ids, k, x) && AddWindows(m, ids, seqs)[x] == seqs[k]
    decreases |ids|
  {
    var n := |ids| - 1;
    var before := AddWindows(m, ids[..n], seqs[..n]);
    assert AddWindows(m, ids, seqs) == before[ids[n] := seqs[n]];
    if x == ids[n] {
      assert LastAt(ids, n, x);
    } else {
      var j :| 0 <= j < |ids| && ids[j] == x;
      assert j < n && ids[..n][j] == x;
      AddWindowsLastAt(m, ids[..n], seqs[..n], x);
      var k :| LastAt(ids[..n], k, x) && before[x] == seqs[..n][k];
      assert LastAt(ids, k, x) by {
        forall k' | k < k' < |ids|
          ensures ids[k'] != x
        {
          if k' < n {
            assert ids[..n][k'] == ids[k'];
          }
        }
      }
    }
  }

  /** With distinct ids, each window is stored under its own id. */
  lemma AddWindowsDistinct(m: map<string, string>, ids: seq<string>, seqs: seq<string>)
    requires |ids| == |seqs| && Distinct(ids)
    ensures forall k :: 0 <= k < |ids| ==> ids[k] in AddWindows(m, ids, seqs) && AddWindows(m, ids, seqs)[ids[k]] == seqs[k]
  {
    AddWindowsStored(m, ids, seqs);
    forall k | 0 <= k < |ids|
      ensures ids[k] in AddWindows(m, ids, seqs) && AddWindows(m, ids, seqs)[ids[k]] == seqs[k]
    {
      AddWindowsKeys(m, ids, seqs);
      assert ids[k] in ids;
    }
  }

  /** The ids of the windows cut from one scaffold are distinct: their starts increase. */
  lemma SlideIdsDistinct(seqId: string, sequence: string, ws: int, stride: int)
    ensures Distinct(Slide(seqId, sequence, ws, stride).ids)
  {
    if stride > 0 {
      KeptStartsIncreasing(sequence, ws, stride, 0);
      WindowIdsDistinct(seqId, |sequence|, ws, KeptStarts(sequence, ws, stride, 0));
    }
  }

  lemma WindowIdsDistinct(seqId: string, len: nat, ws: int, starts: seq<nat>)
    requires forall a, b :: 0 <= a < b < |starts| ==> starts[a] < starts[b]
    ensures Distinct(WindowIds(seqId, len, ws, starts))
  {
    var ids := WindowIds(seqId, len, ws, starts);
    forall a, b | 0 <= a < b < |ids|
      ensures ids[a] != ids[b]
    {
      WindowIdsParse(seqId, len, ws, starts, a);
      WindowIdsParse(seqId, len, ws, starts, b);
    }
  }

  lemma WindowIdsParse(seqId: string, len: nat, ws: int, starts: seq<nat>, k: nat)
    requires k < |starts|
    ensures ParseWindowId(WindowIds(seqId, len, ws, starts)[k]) == Some((seqId, starts[k] as int, Min(starts[k] + ws, len)))
  {
    WindowIdRoundTrip(seqId, starts[k], Min(starts[k] + ws, len));
  }

  /** The loop that stores the windows of one scaffold in the window dictionary. */
  method StoreWindows(m: map<string, string>, ids: seq<string>, seqs: seq<string>) returns (r: map<string, string>)
    requires |ids| == |seqs|
    ensures r == AddWindows(m, ids, seqs)
  {
    r := m;
    var i := 0;
    while i < |ids|
      invariant 0 <= i <= |ids|
      invariant r == AddWindows(m, ids[..i], seqs[..i])
    {
      assert ids[..i + 1][..i] == ids[..i] && seqs[..i + 1][..i] == seqs[..i];
      r := r[ids[i] := seqs[i]];
      i := i + 1;
    }
    assert ids[..i] == ids && seqs[..i] == seqs;
  }

  /** The result of `make_windows` for each scaffold of the input file, beside the scaffold's id. */
  function MadeWindows(scaffolds: seq<(string, string)>, windowSize: Arg, windowGap: Arg,
                       parseFloat: string -> Option<real>): (made: seq<(string, Result<Windows, WindowError>)>)
    ensures |made| == |scaffolds|
    decreases |scaffolds|
  {
    if |scaffolds| == 0 then []
    else
      var last := scaffolds[|scaffolds| - 1];
      MadeWindows(scaffolds[..|scaffolds| - 1], windowSize, windowGap, parseFloat)
      + [(last.0, Windowing(last.0, last.1, windowSize, windowGap, parseFloat))]
  }

  /** The result for each scaffold is that of `make_windows` on it. */
  lemma {:induction false} MadeWindowsAt(scaffolds: seq<(string, string)>, windowSize: Arg, windowGap: Arg,
                                         parseFloat: string -> Option<real>, j: nat)
    requires j < |scaffolds|
    ensures MadeWindows(scaffolds, windowSize, windowGap, parseFloat)[j]
            == (scaffolds[j].0, Windowing(scaffolds[j].0, scaffolds[j].1, windowSize, windowGap, parseFloat))
    decreases |scaffolds|
  {
    var n := |scaffolds| - 1;
    if j < n {
      MadeWindowsAt(scaffolds[..n], windowSize, windowGap, parseFloat, j);
    }
  }

  /** Every successful result has as many sequences as ids. */
  predicate Shaped(made: seq<(string, Result<Windows, WindowError>)>)
  {
    forall j :: 0 <= j < |made| && made[j].1.Ok? ==> |made[j].1.value.ids| == |made[j].1.value.seqs|
  }

  /** What the loop of `write_windows` has built after the first `n` scaffolds: the window ids of each
      scaffold (`seq_win_id`) and the sequence of each window (`window_dict`), or the first error raised. */
  function Gather(made: seq<(string, Result<Windows, WindowError>)>, n: nat)
    : Result<(Dict<string, seq<string>>, map<string, string>), WindowError>
    requires n <= |made| && Shaped(made)
  {
    if n == 0 then Ok(([], map[]))
    else
      match Gather(made, n - 1)
      case Err(e) => Err(e)
      case Ok(acc) =>
        match made[n - 1].1
        case Err(e) => Err(e)
        case Ok(w) => Ok((Put(acc.0, made[n - 1].0, w.ids), AddWindows(acc.1, w.ids, w.seqs)))
  }

  /** The two dictionaries `write_windows` builds from a scaffold file, or the error it raises. */
  function Collected(scaffolds: seq<(string, string)>, windowSize: Arg, windowGap: Arg,
                     parseFloat: string -> Option<real>): Result<(Dict<string, seq<string>>, map<string, string>), WindowError>
  {
    var made := MadeWindows(scaffolds, windowSize, windowGap, parseFloat);
    MadeWindowsShaped(scaffolds, windowSize, windowGap, parseFloat);
    Gather(made, |made|)
  }

  /** Each successful result has as many sequences as ids. */
  lemma MadeWindowsShaped(scaffolds: seq<(string, string)>, windowSize: Arg, windowGap: Arg,
                          parseFloat: string -> Option<real>)
    ensures Shaped(MadeWindows(scaffolds, windowSize, windowGap, parseFloat))
  {
    var made := MadeWindows(scaffolds, windowSize, windowGap, parseFloat);
    forall j | 0 <= j < |made| && made[j].1.Ok?
      ensures |made[j].1.value.ids| == |made[j].1.value.seqs|
    {
      MadeWindowsAt(scaffolds, windowSize, windowGap, parseFloat, j);
    }
  }

  /** Each successful result names the scaffold it was made from in each of its window ids. */
  lemma MadeWindowsParented(scaffolds: seq<(string, string)>, windowSize: Arg, windowGap: Arg,
                            parseFloat: string -> Option<real>)
    ensures Parented(MadeWindows(scaffolds, windowSize, windowGap, parseFloat))
  {
    var made := MadeWindows(scaffolds, windowSize, windowGap, parseFloat);
    forall j | 0 <= j < |made| && made[j].1.Ok?
      ensures forall k :: 0 <= k < |made[j].1.value.ids| ==> ParentOf(made[j].1.value.ids[k]) == Some(made[j].0)
    {
      MadeWindowsAt(scaffolds, windowSize, windowGap, parseFloat, j);
      WindowingParents(scaffolds[j].0, scaffolds[j].1, windowSize, windowGap, parseFloat);
    }
  }

  /** Every window id of a successful result names that result's scaffold. */
  predicate Parented(made: seq<(string, Result<Windows, WindowError>)>)
  {
    forall j, k :: 0 <= j < |made| && made[j].1.Ok? && 0 <= k < |made[j].1.value.ids| ==>
      ParentOf(made[j].1.value.ids[k]) == Some(made[j].0)
  }

  /** The scaffold loop of `write_windows`. */
  method CollectWindows(scaffolds: seq<(string, string)>, windowSize: Arg, windowGap: Arg,
                        parseFloat: string -> Option<real>)
    returns (r: Result<(Dict<string, seq<string>>, map<string, string>), WindowError>)
    ensures r == Collected(scaffolds, windowSize, windowGap, parseFloat)
  {
    ghost var made := MadeWindows(scaffolds, windowSize, windowGap, parseFloat);
    CollectedGather(scaffolds, windowSize, windowGap, parseFloat);
    r := GatherWindows(scaffolds, windowSize, windowGap, parseFloat, made);
  }

  /** `made` holds, scaffold by scaffold, the id and the result of `make_windows`. */
  predicate MadeOf(made: seq<(string, Result<Windows, WindowError>)>, scaffolds: seq<(string, string)>,
                   windowSize: Arg, windowGap: Arg, parseFloat: string -> Option<real>)
  {
    |made| == |scaffolds| &&
    forall j {:trigger scaffolds[j]} :: 0 <= j < |made| ==>
      made[j] == (scaffolds[j].0, Windowing(scaffolds[j].0, scaffolds[j].1, windowSize, windowGap, parseFloat))
  }

  lemma CollectedGather(scaffolds: seq<(string, string)>, windowSize: Arg, windowGap: Arg,
                        parseFloat: string -> Option<real>)
    ensures var made := MadeWindows(scaffolds, windowSize, windowGap, parseFloat);
            && Shaped(made) && MadeOf(made, scaffolds, windowSize, windowGap, parseFloat)
            && Collected(scaffolds, windowSize, windowGap, parseFloat) == Gather(made, |scaffolds|)
  {
    MadeWindowsShaped(scaffolds, windowSize, windowGap, parseFloat);
    forall j | 0 <= j < |scaffolds|
      ensures MadeWindows(scaffolds, windowSize, windowGap, parseFloat)[j]
              == (scaffolds[j].0, Windowing(scaffolds[j].0, scaffolds[j].1, windowSize, windowGap, parseFloat))
    {
      MadeWindowsAt(scaffolds, windowSize, windowGap, parseFloat, j);
    }
  }

  /** The loop itself, over the results of `make_windows` scaffold by scaffold. */
  method GatherWindows(scaffolds: seq<(string, string)>, windowSize: Arg, windowGap: Arg,
                       parseFloat: string -> Option<real>, ghost made: seq<(string, Result<Windows, WindowError>)>)
    returns (r: Result<(Dict<string, seq<string>>, map<string, string>), WindowError>)
    requires MadeOf(made, scaffolds, windowSize, windowGap, parseFloat) && Shaped(made)
    ensures r == Gather(made, |made|)
  {
    var acc: (Dict<string, seq<string>>, map<string, string>) := ([], map[]);
    var n := 0;
    while n < |scaffolds|
      invariant 0 <= n <= |scaffolds|
      invariant Gather(made, n) == Ok(acc)
    {
      var next := CollectStep(scaffolds, windowSize, windowGap, parseFloat, made, n, acc);
      if next.Err? {
        GatherErrorSticks(made, n + 1);
        return next;
      }
      acc := next.value;
      n := n + 1;
    }
    r := Ok(acc);
  }

  /** One pass of the scaffold loop of `write_windows`: the scaffold's windows are made, its window ids
      recorded under its id and its windows stored under theirs. */
  method CollectStep(scaffolds: seq<(string, string)>, windowSize: Arg, windowGap: Arg,
                     parseFloat: string -> Option<real>, ghost made: seq<(string, Result<Windows, WindowError>)>,
                     n: nat, acc: (Dict<string, seq<string>>, map<string, string>))
    returns (r: Result<(Dict<string, seq<string>>, map<string, string>), WindowError>)
    requires n < |scaffolds| && MadeOf(made, scaffolds, windowSize, windowGap, parseFloat) && Shaped(made)
    requires Gather(made, n) == Ok(acc)
    ensures r == Gather(made, n + 1)
  {
    var w := MakeWindows(scaffolds[n].0, scaffolds[n].1, windowSize, windowGap, parseFloat);
    assert made[n].1 == w;
    if w.Err? {
      r := Err(w.error);
    } else {
      var stored := StoreWindows(acc.1, w.value.ids, w.value.seqs);
      r := Ok((Put(acc.0, scaffolds[n].0, w.value.ids), stored));
    }
  }

  /** Once a scaffold fails, the whole collection fails with its error. */
  lemma {:induction false} GatherErrorSticks(made: seq<(string, Result<Windows, WindowError>)>, n: nat)
    requires n <= |made| && Shaped(made)
    ensures Gather(made, n).Err? ==> Gather(made, |made|) == Gather(made, n)
    decreases |made| - n
  {
    if n < |made| {
      GatherErrorSticks(made, n + 1);
    }
  }

  /** The collection fails exactly when some scaffold fails, and then with the error of the first one. */
  lemma {:induction false} GatherErrors(made: seq<(string, Result<Windows, WindowError>)>, n: nat)
    requires n <= |made| && Shaped(made)
    ensures Gather(made, n).Err? <==> exists j :: 0 <= j < n && made[j].1.Err?
  {
    if n > 0 {
      GatherErrors(made, n - 1);
      if made[n - 1].1.Err? {
        assert exists j :: 0 <= j < n && made[j].1.Err?;
      }
      if exists j :: 0 <= j < n && made[j].1.Err? {
        var j :| 0 <= j < n && made[j].1.Err?;
        if j < n - 1 {
          assert Gather(made, n - 1).Err?;
        }
      }
    }
  }

  lemma {:induction false} GatherFirstError(made: seq<(string, Result<Windows, WindowError>)>, n: nat)
    requires n <= |made| && Shaped(made) && Gather(made, n).Err?
    ensures exists j :: 0 <= j < n && made[j].1 == Err(Gather(made, n).error)
                        && forall k :: 0 <= k < j ==> made[k].1.Ok?
  {
    if Gather(made, n - 1).Err? {
      GatherFirstError(made, n - 1);
      assert Gather(made, n) == Gather(made, n - 1);
    } else {
      GatherAllOk(made, n - 1);
      assert made[n - 1].1 == Err(Gather(made, n).error);
    }
  }

  lemma {:induction false} GatherAllOk(made: seq<(string, Result<Windows, WindowError>)>, n: nat)
    requires n <= |made| && Shaped(made) && Gather(made, n).Ok?
    ensures forall k :: 0 <= k < n ==> made[k].1.Ok?
  {
    if n > 0 {
      GatherAllOk(made, n - 1);
    }
  }

  /** Every group is the window list of a scaffold with that id, and every window stored is a window of
      some scaffold under its own id. */
  predicate GroupsFrom(made: seq<(string, Result<Windows, WindowError>)>, n: nat, groups: Dict<string, seq<string>>)
    requires n <= |made|
  {
    forall i :: 0 <= i < |groups| ==>
      exists j :: 0 <= j < n && made[j].0 == groups[i].0 && made[j].1.Ok? && made[j].1.value.ids == groups[i].1
  }

  predicate StoredFrom(made: seq<(string, Result<Windows, WindowError>)>, n: nat, windows: map<string, string>)
    requires n <= |made| && Shaped(made)
  {
    forall x :: x in windows ==>
      exists j, k :: 0 <= j < n && made[j].1.Ok? && 0 <= k < |made[j].1.value.ids|
                     && made[j].1.value.ids[k] == x && made[j].1.value.seqs[k] == windows[x]
  }

  /** What a successful collection holds: one group per distinct scaffold id, each the window ids of a
      scaffold with that id, all of them stored; and every stored sequence is the window of that id. */
  lemma {:induction false} GatherContents(made: seq<(string, Result<Windows, WindowError>)>, n: nat)
    requires n <= |made| && Shaped(made) && Gather(made, n).Ok?
    ensures var groups := Gather(made, n).value.0;
            var windows := Gather(made, n).value.1;
            && Distinct(Keys(groups))
            && KeysFrom(made, n, groups)
            && GroupsFrom(made, n, groups)
            && StoredFrom(made, n, windows)
            && AllStored(made, n, windows)
            && Covered(groups, windows)
  {
    if n > 0 {
      GatherContents(made, n - 1);
      var acc := Gather(made, n - 1).value;
      var w := made[n - 1].1.value;
      var key := made[n - 1].0;
      assert Gather(made, n) == Ok((Put(acc.0, key, w.ids), AddWindows(acc.1, w.ids, w.seqs)));
      PutDistinct(acc.0, key, w.ids);
      KeysStep(made, n, acc.0, w.ids);
      GroupsStep(made, n, acc.0);
      StoredStep(made, n, acc.1);
      AllStoredStep(made, n, acc.1);
      CoveredStep(acc.0, acc.1, key, w.ids, w.seqs);
    }
  }

  /** Every window id made for any of the first `n` scaffolds is stored, repeated scaffold ids included:
      the window map is never cleared. */
  predicate AllStored(made: seq<(string, Result<Windows, WindowError>)>, n: nat, windows: map<string, string>)
    requires n <= |made|
  {
    forall j, k :: 0 <= j < n && made[j].1.Ok? && 0 <= k < |made[j].1.value.ids| ==> made[j].1.value.ids[k] in windows
  }

  lemma AllStoredStep(made: seq<(string, Result<Windows, WindowError>)>, n: nat, windows: map<string, string>)
    requires 0 < n <= |made| && Shaped(made) && made[n - 1].1.Ok?
    requires AllStored(made, n - 1, windows)
    ensures AllStored(made, n, AddWindows(windows, made[n - 1].1.value.ids, made[n - 1].1.value.seqs))
  {
    var w := made[n - 1].1.value;
    AddWindowsKeys(windows, w.ids, w.seqs);
    forall j, k | 0 <= j < n && made[j].1.Ok? && 0 <= k < |made[j].1.value.ids|
      ensures made[j].1.value.ids[k] in AddWindows(windows, w.ids, w.seqs)
    {
      if j == n - 1 {
        assert w.ids[k] in w.ids;
      }
    }
  }

  /** Every window id listed in a group is stored. */
  predicate Covered(groups: Dict<string, seq<string>>, windows: map<string, string>)
  {
    forall i, k :: 0 <= i < |groups| && 0 <= k < |groups[i].1| ==> groups[i].1[k] in windows
  }

  /** The keys of the groups are the ids of the first `n` scaffolds. */
  ghost predicate KeysFrom(made: seq<(string, Result<Windows, WindowError>)>, n: nat, groups: Dict<string, seq<string>>)
    requires n <= |made|
  {
    forall x :: x in Keys(groups) <==> exists j :: 0 <= j < n && made[j].0 == x
  }

  lemma KeysStep(made: seq<(string, Result<Windows, WindowError>)>, n: nat, groups: Dict<string, seq<string>>, ids: seq<string>)
    requires 0 < n <= |made| && KeysFrom(made, n - 1, groups)
    ensures KeysFrom(made, n, Put(groups, made[n - 1].0, ids))
  {
    var key := made[n - 1].0;
    PutKeys(groups, key, ids);
    forall x
      ensures x in Keys(Put(groups, key, ids)) <==> exists j :: 0 <= j < n && made[j].0 == x
    {
      if x == key {
        assert made[n - 1].0 == x;
      } else if exists j :: 0 <= j < n && made[j].0 == x {
        var j :| 0 <= j < n && made[j].0 == x;
        assert j < n - 1;
      }
    }
  }

  lemma GroupsStep(made: seq<(string, Result<Windows, WindowError>)>, n: nat, groups: Dict<string, seq<string>>)
    requires 0 < n <= |made| && made[n - 1].1.Ok?
    requires GroupsFrom(made, n - 1, groups)
    ensures GroupsFrom(made, n, Put(groups, made[n - 1].0, made[n - 1].1.value.ids))
  {
    var key := made[n - 1].0;
    var ids := made[n - 1].1.value.ids;
    var r := Put(groups, key, ids);
    PutEntries(groups, key, ids);
    forall i | 0 <= i < |r|
      ensures exists j :: 0 <= j < n && made[j].0 == r[i].0 && made[j].1.Ok? && made[j].1.value.ids == r[i].1
    {
      if r[i] != (key, ids) {
        var i' :| 0 <= i' < |groups| && groups[i'] == r[i];
        var j :| 0 <= j < n - 1 && made[j].0 == groups[i'].0 && made[j].1.Ok? && made[j].1.value.ids == groups[i'].1;
      }
    }
  }

  lemma StoredStep(made: seq<(string, Result<Windows, WindowError>)>, n: nat, windows: map<string, string>)
    requires 0 < n <= |made| && Shaped(made) && made[n - 1].1.Ok?
    requires StoredFrom(made, n - 1, windows)
    ensures StoredFrom(made, n, AddWindows(windows, made[n - 1].1.value.ids, made[n - 1].1.value.seqs))
  {
    var w := made[n - 1].1.value;
    var r := AddWindows(windows, w.ids, w.seqs);
    AddWindowsKeys(windows, w.ids, w.seqs);
    AddWindowsStored(windows, w.ids, w.seqs);
    forall x | x in r
      ensures exists j, k :: 0 <= j < n && made[j].1.Ok? && 0 <= k < |made[j].1.value.ids|
                             && made[j].1.value.ids[k] == x && made[j].1.value.seqs[k] == r[x]
    {
      if x in w.ids {
        var k :| 0 <= k < |w.ids| && w.ids[k] == x && r[x] == w.seqs[k];
        assert made[n - 1].1.value.ids[k] == x;
      } else {
        var j, k :| 0 <= j < n - 1 && made[j].1.Ok? && 0 <= k < |made[j].1.value.ids|
                    && made[j].1.value.ids[k] == x && made[j].1.value.seqs[k] == windows[x];
      }
    }
  }

  lemma CoveredStep(groups: Dict<string, seq<string>>, windows: map<string, string>, key: string,
                    ids: seq<string>, seqs: seq<string>)
    requires |ids| == |seqs| && Covered(groups, windows)
    ensures Covered(Put(groups, key, ids), AddWindows(windows, ids, seqs))
  {
    var r := Put(groups, key, ids);
    var m := AddWindows(windows, ids, seqs);
    PutEntries(groups, key, ids);
    AddWindowsKeys(windows, ids, seqs);
    forall i, k | 0 <= i < |r| && 0 <= k < |r[i].1|
      ensures r[i].1[k] in m
    {
      if r[i] != (key, ids) {
        var i' :| 0 <= i' < |groups| && groups[i'] == r[i];
        assert r[i].1[k] in windows;
      } else {
        assert ids[k] in ids;
      }
    }
  }

  /** What a collection that succeeds holds, stated about the scaffolds of the input file: one group per
      distinct scaffold id, holding the window ids of a scaffold with that id, every one of them stored; every
      stored sequence is a window of some scaffold under its own id; every window id names its scaffold. */
  lemma CollectedContents(scaffolds: seq<(string, string)>, windowSize: Arg, windowGap: Arg,
                          parseFloat: string -> Option<real>)
    requires Collected(scaffolds, windowSize, windowGap, parseFloat).Ok?
    ensures var made := MadeWindows(scaffolds, windowSize, windowGap, parseFloat);
            var groups := Collected(scaffolds, windowSize, windowGap, parseFloat).value.0;
            var windows := Collected(scaffolds, windowSize, windowGap, parseFloat).value.1;
            && Shaped(made) && Parented(made)
            && Distinct(Keys(groups))
            && KeysFrom(made, |made|, groups)
            && GroupsFrom(made, |made|, groups)
            && StoredFrom(made, |made|, windows)
            && AllStored(made, |made|, windows)
            && Covered(groups, windows)
  {
    var made := MadeWindows(scaffolds, windowSize, windowGap, parseFloat);
    MadeWindowsShaped(scaffolds, windowSize, windowGap, parseFloat);
    MadeWindowsParented(scaffolds, windowSize, windowGap, parseFloat);
    GatherContents(made, |made|);
  }

  /** Two windows are linked only when they are consecutive windows of one scaffold; both are then in the
      window file and their ids name that scaffold. */
  lemma LinkedWindowsShareParent(scaffolds: seq<(string, string)>, windowSize: Arg, windowGap: Arg,
                                 parseFloat: string -> Option<real>, p: (string, string))
    requires Collected(scaffolds, windowSize, windowGap, parseFloat).Ok?
    requires p in Links.LinkPairs(Collected(scaffolds, windowSize, windowGap, parseFloat).value.0)
    ensures var windows := Collected(scaffolds, windowSize, windowGap, parseFloat).value.1;
            && p.0 in windows && p.1 in windows
            && ParentOf(p.0).Some? && ParentOf(p.0) == ParentOf(p.1)
            && exists j :: 0 <= j < |scaffolds| && ParentOf(p.0) == Some(scaffolds[j].0)
  {
    var made := MadeWindows(scaffolds, windowSize, windowGap, parseFloat);
    var groups := Collected(scaffolds, windowSize, windowGap, parseFloat).value.0;
    CollectedContents(scaffolds, windowSize, windowGap, parseFloat);
    Links.LinkPairsExact(groups, |groups|, p);
    var g, i :| g < |groups| && Links.LinksAt(groups, g, i, p);
    var j :| 0 <= j < |made| && made[j].0 == groups[g].0 && made[j].1.Ok? && made[j].1.value.ids == groups[g].1;
    MadeWindowsAt(scaffolds, windowSize, windowGap, parseFloat, j);
    assert ParentOf(groups[g].1[i]) == Some(scaffolds[j].0);
    assert ParentOf(groups[g].1[i + 1]) == Some(scaffolds[j].0);
  }

  /** The two files `write_windows` produces: the window file's path with the windows written to it (id to
      sequence), and the path of the links file. */
  datatype Written = Written(windowFile: string, linksFile: string, windows: map<string, string>)

  /** `write_windows`: cuts every scaffold of the file into windows, then names the window file and appends
      the links of consecutive windows to the links file; an error from `make_windows` is raised before
      either file is touched. The scaffolds are the file's records in order, and `links` is the links file
      in the output directory. */
  method WriteWindows(scaffoldFile: string, scaffolds: seq<(string, string)>, outputDir: string,
                      windowSize: Arg, windowGap: Arg, parseFloat: string -> Option<real>,
                      links: Links.LinksFile)
    returns (r: Result<Written, WindowError>)
    modifies links
    ensures r.Err? <==> Collected(scaffolds, windowSize, windowGap, parseFloat).Err?
    ensures r.Err? ==> r.error == Collected(scaffolds, windowSize, windowGap, parseFloat).error
                       && links.present == old(links.present) && links.content == old(links.content)
    ensures r.Ok? ==>
              var c := Collected(scaffolds, windowSize, windowGap, parseFloat).value;
              && r.value == Written(WindowFileName(scaffoldFile, outputDir), PathJoin(outputDir, "links_file.tsv"), c.1)
              && links.present
              && links.content == (if old(links.present) then old(links.content) else "") + Links.Render(Links.LinkPairs(c.0))
  {
    var collected := CollectWindows(scaffolds, windowSize, windowGap, parseFloat);
    if collected.Err? {
      return Err(collected.error);
    }
    var windowFile := WindowFileName(scaffoldFile, outputDir);
    var linksFile := PathJoin(outputDir, "links_file.tsv");
    var _ := links.WriteLinks(collected.value.0);
    r := Ok(Written(windowFile, linksFile, collected.value.1));
  }
}
