/** Shared vocabulary of the three loaders: the Python errors they can raise,
    the outcome of a Python generator, the configuration record every loader
    declares, the unified image-text record, and the handful of Python string
    and list primitives (`str(n)`, `str.zfill`, `str.split`, `list.index`,
    `os.path.join`) whose behaviour the loaders depend on.
 */
module Common {

  datatype Option<+T> = None | Some(value: T)

  /** The Python exceptions the loaders raise or let escape. */
  datatype Error =
    | NotImplementedError
    | ValueError(message: string)
    | KeyError
    | IndexError
    | UnboundLocalError

  datatype Result<+T> = Ok(value: T) | Err(error: Error) {
    predicate IsFailure() { Err? }

    function PropagateFailure<U>(): Result<U>
      requires Err?
    {
      Err(error)
    }

    function Extract(): T
      requires Ok?
    {
      value
    }
  }

  /** What a Python generator produced when driven to the end: the
      `(key, example)` pairs it yielded, in order, and the exception that
      stopped it, if one did. */
  datatype Run<+R> = Run(yielded: seq<(int, R)>, raised: Option<Error>)

  /** A run that yields `p` and then continues as `rest`. */
  function Cons<R>(p: (int, R), rest: Run<R>): (r: Run<R>)
    ensures |r.yielded| == |rest.yielded| + 1 && r.yielded[0] == p
    ensures r.yielded[1..] == rest.yielded && r.raised == rest.raised
  {
    Run([p] + rest.yielded, rest.raised)
  }

  /** `SEACrowdConfig(name=..., version=..., description=..., schema=..., subset_id=...)`. */
  datatype Config = Config(name: string, version: string, description: string, schema: string, subsetId: string)

  /** The unified image-text example shared by the SEACrowd loaders; the
      label type is a class index in one loader and a class name in another. */
  datatype ImageTextExample<L> = ImageTextExample(
    id: string,
    imagePaths: seq<string>,
    texts: Option<string>,
    context: Option<string>,
    labels: seq<L>)

  // ---------------------------------------------------------------------
  // Decimal strings: str(n), int(s) and str.zfill
  // ---------------------------------------------------------------------

  predicate IsDigit(c: char) { '0' <= c <= '9' }

  predicate AllDigits(s: string) { forall i :: 0 <= i < |s| ==> IsDigit(s[i]) }

  function DigitChar(d: nat): (c: char)
    requires d < 10
    ensures IsDigit(c) && c as int - '0' as int == d
  {
    ('0' as int + d) as char
  }

  /** The value of a string of decimal digits, leading zeros allowed. */
  function DigitsValue(s: string): nat
    requires AllDigits(s)
  {
    if |s| == 0 then 0
    else DigitsValue(s[..|s| - 1]) * 10 + (s[|s| - 1] as int - '0' as int)
  }

  /** Python's `str(n)` for a non-negative integer. */
  function NatToString(n: nat): (s: string)
    ensures |s| >= 1 && AllDigits(s)
    ensures |s| > 1 ==> s[0] != '0'
  {
    if n < 10 then [DigitChar(n)] else NatToString(n / 10) + [DigitChar(n % 10)]
  }

  function Pow10(k: nat): (p: nat)
    ensures p >= 1
  {
    if k == 0 then 1 else 10 * Pow10(k - 1)
  }

  function Zeros(k: nat): (z: string)
    ensures |z| == k && forall i :: 0 <= i < k ==> z[i] == '0'
  {
    seq(k, _ => '0')
  }

  /** Python's `s.zfill(width)`: left-pads with `'0'` up to `width`
      characters, keeping a leading sign in front of the padding. */
  function ZFill(s: string, width: nat): (r: string)
    ensures |r| == if |s| >= width then |s| else width
    ensures |s| >= width ==> r == s
    ensures |s| < width && (|s| == 0 || (s[0] != '+' && s[0] != '-')) ==>
              r[width - |s|..] == s && forall i :: 0 <= i < width - |s| ==> r[i] == '0'
  {
    if |s| >= width then s
    else if |s| > 0 && (s[0] == '+' || s[0] == '-') then [s[0]] + Zeros(width - |s|) + s[1..]
    else Zeros(width - |s|) + s
  }

  /** `str(n).zfill(width)`. */
  function Padded(n: nat, width: nat): string
  {
    ZFill(NatToString(n), width)
  }

  lemma {:induction false} NatToStringRoundTrip(n: nat)
    ensures DigitsValue(NatToString(n)) == n
    decreases n
  {
    var s := NatToString(n);
    if n >= 10 {
      NatToStringRoundTrip(n / 10);
      assert s[..|s| - 1] == NatToString(n / 10);
    }
  }

  /** Distinct numbers have distinct decimal spellings. */
  lemma NatToStringInjective(m: nat, n: nat)
    requires m != n
    ensures NatToString(m) != NatToString(n)
  {
    NatToStringRoundTrip(m);
    NatToStringRoundTrip(n);
  }

  lemma {:induction false} NatToStringLength(n: nat, k: nat)
    requires n < Pow10(k)
    ensures |NatToString(n)| <= k || (n == 0 && k == 0)
    decreases n
  {
    if n >= 10 {
      assert k >= 1;
      NatToStringLength(n / 10, k - 1);
    }
  }

  lemma {:induction false} ZerosValue(k: nat)
    ensures AllDigits(Zeros(k)) && DigitsValue(Zeros(k)) == 0
  {
    if k > 0 {
      ZerosValue(k - 1);
      assert Zeros(k)[..k - 1] == Zeros(k - 1);
    }
  }

  /** Leading zeros do not change the value of a digit string. */
  lemma {:induction false} LeadingZerosValue(k: nat, s: string)
    requires AllDigits(s)
    ensures AllDigits(Zeros(k) + s) && DigitsValue(Zeros(k) + s) == DigitsValue(s)
    decreases |s|
  {
    var t := Zeros(k) + s;
    if |s| == 0 {
      assert t == Zeros(k);
      ZerosValue(k);
    } else {
      LeadingZerosValue(k, s[..|s| - 1]);
      assert t[..|t| - 1] == Zeros(k) + s[..|s| - 1];
    }
  }

  /** Zero-padding a number and reading the digits back gives the number. */
  lemma PaddedRoundTrip(n: nat, width: nat)
    ensures AllDigits(Padded(n, width)) && DigitsValue(Padded(n, width)) == n
  {
    var s := NatToString(n);
    NatToStringRoundTrip(n);
    if |s| < width {
      assert Padded(n, width) == Zeros(width - |s|) + s;
      LeadingZerosValue(width - |s|, s);
    }
  }

  /** A number below `10^width` pads to exactly `width` characters. */
  lemma PaddedLength(n: nat, width: nat)
    requires n < Pow10(width) && width >= 1
    ensures |Padded(n, width)| == width
  {
    NatToStringLength(n, width);
  }

  /** `[str(i).zfill(width) for i in range(count)]`. */
  function PaddedTable(count: nat, width: nat): (t: seq<string>)
    ensures |t| == count
  {
    seq(count, i requires 0 <= i < count => Padded(i, width))
  }

  // ---------------------------------------------------------------------
  // list.index, str.split and "sep".join
  // ---------------------------------------------------------------------

  /** Python's `s.index(x)`: the first position holding `x`; `None` stands
      for the `ValueError` raised when `x` is absent. */
  function IndexOf<T(==)>(s: seq<T>, x: T): (r: Option<nat>)
    ensures r.Some? ==> r.value < |s| && s[r.value] == x
    ensures r.Some? ==> forall j :: 0 <= j < r.value ==> s[j] != x
    ensures r.None? <==> x !in s
  {
    if |s| == 0 then None
    else if s[0] == x then Some(0)
    else match IndexOf(s[1..], x)
      case None => None
      case Some(i) => Some(i + 1)
  }

  /** The first occurrence is unique: any position holding `x` with no
      earlier `x` is the one `IndexOf` finds. */
  lemma IndexOfAt<T>(s: seq<T>, x: T, k: nat)
    requires k < |s| && s[k] == x
    requires forall j :: 0 <= j < k ==> s[j] != x
    ensures IndexOf(s, x) == Some(k)
  {
  }

  /** In a table without repetitions, `index` inverts subscripting. */
  lemma IndexOfDistinct<T>(s: seq<T>, i: nat)
    requires i < |s|
    requires forall a, b :: 0 <= a < b < |s| ==> s[a] != s[b]
    ensures IndexOf(s, s[i]) == Some(i)
  {
    IndexOfAt(s, s[i], i);
  }

  /** `sep.join(parts)`. */
  function Join(parts: seq<string>, sep: char): string
    requires |parts| >= 1
  {
    if |parts| == 1 then parts[0] else parts[0] + [sep] + Join(parts[1..], sep)
  }

  /** Python's `s.split(sep)` for a one-character separator: never empty,
      and no piece contains the separator. */
  function Split(s: string, sep: char): (parts: seq<string>)
    ensures |parts| >= 1
    ensures forall i :: 0 <= i < |parts| ==> sep !in parts[i]
    decreases |s|
  {
    match IndexOf(s, sep)
    case None => [s]
    case Some(i) => [s[..i]] + Split(s[i + 1..], sep)
  }

  /** Joining the pieces of a split with the separator gives back the string. */
  lemma {:induction false} JoinSplit(s: string, sep: char)
    ensures Join(Split(s, sep), sep) == s
    decreases |s|
  {
    match IndexOf(s, sep)
    case None =>
    case Some(i) =>
      var rest := Split(s[i + 1..], sep);
      JoinSplit(s[i + 1..], sep);
      assert ([s[..i]] + rest)[1..] == rest;
      assert s == s[..i] + [sep] + s[i + 1..];
  }

  /** One step of `split`: cut at the first separator. */
  lemma SplitAt(s: string, sep: char, i: nat)
    requires IndexOf(s, sep) == Some(i)
    ensures Split(s, sep) == [s[..i]] + Split(s[i + 1..], sep)
  {
  }

  lemma SplitNoSep(s: string, sep: char)
    requires sep !in s
    ensures Split(s, sep) == [s]
  {
  }

  /** A separator-free prefix is the first piece. */
  lemma SplitFirst(x: string, sep: char, y: string)
    requires sep !in x
    ensures Split(x + [sep] + y, sep) == [x] + Split(y, sep)
  {
    var s := x + [sep] + y;
    assert s[..|x|] == x && s[|x| + 1..] == y;
    assert forall j :: 0 <= j < |x| ==> s[j] == x[j];
    IndexOfAt(s, sep, |x|);
    SplitAt(s, sep, |x|);
  }

  /** Splitting distributes over an occurrence of the separator. */
  lemma {:induction false} SplitConcat(x: string, sep: char, y: string)
    ensures Split(x + [sep] + y, sep) == Split(x, sep) + Split(y, sep)
    decreases |x|
  {
    var r := IndexOf(x, sep);
    if r.None? {
      SplitFirst(x, sep, y);
      SplitNoSep(x, sep);
    } else {
      var i := r.value;
      var h, x' := x[..i], x[i + 1..];
      assert x == h + [sep] + x';
      SplitConcat(x', sep, y);
      SplitConcatStep(h, x', sep, y);
    }
  }

  lemma SplitConcatStep(h: string, x': string, sep: char, y: string)
    requires sep !in h
    requires Split(x' + [sep] + y, sep) == Split(x', sep) + Split(y, sep)
    ensures Split(h + [sep] + x' + [sep] + y, sep) == Split(h + [sep] + x', sep) + Split(y, sep)
  {
    var b := x' + [sep] + y;
    var hx := h + [sep] + x';
    assert h + [sep] + x' + [sep] + y == h + [sep] + b;
    var px, py := Split(x', sep), Split(y, sep);
    calc {
      Split(h + [sep] + b, sep);
      { SplitFirst(h, sep, b); }
      [h] + Split(b, sep);
      [h] + (px + py);
      { SeqAssoc([h], px, py); }
      ([h] + px) + py;
      { SplitFirst(h, sep, x'); }
      Split(hx, sep) + py;
    }
  }

  lemma SeqAssoc<T>(a: seq<T>, b: seq<T>, c: seq<T>)
    ensures a + (b + c) == (a + b) + c
  {
  }

  /** `split` undoes `join` when no piece contains the separator. */
  lemma {:induction false} SplitJoin(parts: seq<string>, sep: char)
    requires |parts| >= 1
    requires forall i :: 0 <= i < |parts| ==> sep !in parts[i]
    ensures Split(Join(parts, sep), sep) == parts
    decreases |parts|
  {
    if |parts| == 1 {
      SplitNoSep(parts[0], sep);
    } else {
      var head, tail := parts[0], parts[1..];
      assert sep !in head;
      SplitJoin(tail, sep);
      assert Join(parts, sep) == head + [sep] + Join(tail, sep);
      SplitFirst(head, sep, Join(tail, sep));
      assert [head] + tail == parts;
    }
  }

  /** `s.split(sep)[0]` is the part of `s` before the first separator:
      a prefix of `s` free of `sep`, followed in `s` by `sep` unless it is
      all of `s`. */
  lemma SplitHead(s: string, sep: char)
    ensures var h := Split(s, sep)[0];
      && |h| <= |s| && s[..|h|] == h && sep !in h
      && (|h| < |s| ==> s[|h|] == sep)
  {
  }

  // ---------------------------------------------------------------------
  // Paths
  // ---------------------------------------------------------------------

  /** POSIX `os.path.join(a, b)`: an absolute `b` replaces `a`; otherwise a
      `/` is inserted unless `a` is empty or already ends with one. */
  function PathJoin(a: string, b: string): (p: string)
    ensures |b| > 0 && b[0] == '/' ==> p == b
    ensures !(|b| > 0 && b[0] == '/') ==> |p| >= |b| && p[|p| - |b|..] == b
  {
    if |b| > 0 && b[0] == '/' then b
    else if a == [] || a[|a| - 1] == '/' then a + b
    else a + "/" + b
  }

  /** The last path component, `os.path.basename`: what follows the last
      `/`, found by dropping everything up to each `/` in turn. */
  function Basename(p: string): (b: string)
    ensures '/' !in b
    decreases |p|
  {
    match IndexOf(p, '/')
    case None => p
    case Some(i) => Basename(p[i + 1..])
  }

  /** Joining onto a directory does not change the last component, so a
      file keeps its name wherever it is placed. */
  lemma BasenamePathJoin(a: string, b: string)
    ensures Basename(PathJoin(a, b)) == Basename(b)
  {
    if |b| > 0 && b[0] == '/' {
    } else if a == [] {
      assert PathJoin(a, b) == b;
    } else if a[|a| - 1] == '/' {
      var a' := a[..|a| - 1];
      assert a == a' + ['/'];
      assert PathJoin(a, b) == a' + ['/'] + b;
      BasenameAfterSep(a', b);
    } else {
      assert PathJoin(a, b) == a + ['/'] + b;
      BasenameAfterSep(a, b);
    }
  }

  /** Whatever precedes a `/` does not affect the last component. */
  lemma {:induction false} BasenameAfterSep(a: string, b: string)
    ensures Basename(a + ['/'] + b) == Basename(b)
    decreases |a|
  {
    IndexOfAcrossSep(a, '/', b);
    match IndexOf(a, '/')
    case None =>
      DropThroughSep(a, '/', b);
    case Some(i) =>
      DropInside(a, '/', b, i);
      BasenameAfterSep(a[i + 1..], b);
  }

  lemma DropThroughSep<T>(a: seq<T>, sep: T, b: seq<T>)
    ensures (a + [sep] + b)[|a| + 1..] == b
  {
  }

  lemma DropInside<T>(a: seq<T>, sep: T, b: seq<T>, i: nat)
    requires i < |a|
    ensures (a + [sep] + b)[i + 1..] == a[i + 1..] + [sep] + b
  {
  }

  /** The first `sep` of `a + [sep] + b` is the first one of `a`, or the
      added one when `a` has none. */
  lemma IndexOfAcrossSep<T>(a: seq<T>, sep: T, b: seq<T>)
    ensures IndexOf(a, sep).None? ==> IndexOf(a + [sep] + b, sep) == Some(|a|)
    ensures IndexOf(a, sep).Some? ==> IndexOf(a + [sep] + b, sep) == IndexOf(a, sep)
  {
    var s := a + [sep] + b;
    match IndexOf(a, sep)
    case None =>
      assert forall j :: 0 <= j < |a| ==> s[j] == a[j];
      IndexOfAt(s, sep, |a|);
    case Some(i) =>
      assert forall j :: 0 <= j <= i ==> s[j] == a[j];
      IndexOfAt(s, sep, i);
  }

  /** A plain file name is its own basename. */
  lemma BasenameOfName(b: string)
    requires '/' !in b
    ensures Basename(b) == b
  {
  }
}
