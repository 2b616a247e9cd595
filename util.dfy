/** The helpers of `apis/util.py`: the reversible Kubernetes service-account
    name codec, the pagination arithmetic and the dummy-project test. */
module Util {
  import opened Wrappers
  import opened Strs
  import PyMath

  // ---------------------------------------------------------------------
  // Kubernetes service-account name codec
  // ---------------------------------------------------------------------

  /** Characters `encode_k8s_sa` copies unchanged. */
  predicate Passthrough(c: char) {
    IsLower(c) || ('1' <= c <= '9') || c == '-' || c == '.'
  }

  /** Characters a Kubernetes service-account name may hold. */
  predicate K8sChar(c: char) {
    IsLower(c) || IsDigit(c) || c == '-' || c == '.'
  }

  /** Characters of the names the codec is meant for: [A-Za-z0-9_.-]. */
  predicate NameChar(c: char) {
    IsLetter(c) || IsDigit(c) || c == '_' || c == '-' || c == '.'
  }

  /** What `encode_k8s_sa` emits for one character. */
  function EncodeChar(c: char): (r: string)
    ensures Passthrough(c) ==> r == [c]
    ensures IsUpper(c) ==> r == [ToLowerChar(c), '0']
    ensures c == '0' ==> r == "00"
    ensures c == '_' ==> r == "-0"
    ensures !NameChar(c) ==> r == []
    ensures forall i :: 0 <= i < |r| ==> K8sChar(r[i])
  {
    if Passthrough(c) then [c]
    else if IsUpper(c) then [ToLowerChar(c), '0']
    else if c == '0' then "00"
    else if c == '_' then "-0"
    else []
  }

  /** The encoding of a whole name: the encodings of its characters, in order. */
  function Encoded(name: string): (r: string)
    ensures forall i :: 0 <= i < |r| ==> K8sChar(r[i])
  {
    if name == [] then [] else Encoded(name[..|name| - 1]) + EncodeChar(name[|name| - 1])
  }

  /** `encode_k8s_sa`. */
  method EncodeK8sSa(name: string) returns (ret: string)
    ensures ret == Encoded(name)
  {
    ret := "";
    for i := 0 to |name|
      invariant ret == Encoded(name[..i])
    {
      assert name[..i + 1][..i] == name[..i];
      ret := ret + EncodeChar(name[i]);
    }
    assert name[..|name|] == name;
  }

  lemma {:induction false} EncodedAppend(a: string, b: string)
    ensures Encoded(a + b) == Encoded(a) + Encoded(b)
    decreases |b|
  {
    if b == [] {
      assert a + b == a;
    } else {
      var b' := b[..|b| - 1];
      var x := b[|b| - 1];
      assert (a + b)[..|a + b| - 1] == a + b';
      assert (a + b)[|a + b| - 1] == x;
      assert Encoded(a + b) == Encoded(a + b') + EncodeChar(x);
      assert Encoded(b) == Encoded(b') + EncodeChar(x);
      EncodedAppend(a, b');
      AppendAssoc(Encoded(a), Encoded(b'), EncodeChar(x));
    }
  }

  /** Encoding is a homomorphism: the encoding of `[c] + rest` starts with
      the encoding of `c`. */
  lemma {:induction false} EncodedCons(c: char, rest: string)
    ensures Encoded([c] + rest) == EncodeChar(c) + Encoded(rest)
  {
    EncodedAppend([c], rest);
    assert [c][..0] == [];
  }

  /** `merge_zero`: undoes the upper-case or underscore marker of an encoded character. */
  function MergeZero(c: char): (r: char)
    ensures IsLower(c) ==> IsUpper(r) && ToLowerChar(r) == c
    ensures c == '-' ==> r == '_'
    ensures c == '0' ==> r == '0'
  {
    if c == '0' then '0' else if c == '-' then '_' else ToUpperChar(c)
  }

  function Zeros(n: nat): (r: string)
  {
    seq(n, _ => '0')
  }

  /** The length of the run of '0' that `s` starts with. */
  function LeadingZeros(s: string): (k: nat)
    ensures k <= |s|
    ensures forall j :: 0 <= j < k ==> s[j] == '0'
    ensures k < |s| ==> s[k] != '0'
  {
    if s == [] || s[0] != '0' then 0 else 1 + LeadingZeros(s[1..])
  }

  /** What one character followed by a run of `k` zeros decodes to: an odd
      run turns the character back by `merge_zero`, and every remaining pair
      of zeros stands for one '0'. */
  function DecodedHead(c: char, k: nat): (r: string)
    ensures |r| == 1 + k / 2
  {
    (if k % 2 == 1 then [MergeZero(c)] else [c]) + Zeros(k / 2)
  }

  /** The decoding `decode_k8s_sa` computes, one character and the run of
      zeros after it at a time. The last character is the case of an empty run. */
  function Decoded(s: string): string
    decreases |s|
  {
    if s == [] then []
    else
      var k := LeadingZeros(s[1..]);
      DecodedHead(s[0], k) + Decoded(s[1 + k..])
  }

  /** One step of the decoder at position `i`, over a run of `k` zeros ending at `next`. */
  lemma DecodedAt(s: string, i: nat, k: nat, next: nat)
    requires i < |s| && k == LeadingZeros(s[i + 1..]) && next == i + 1 + k
    ensures next <= |s|
    ensures Decoded(s[i..]) == DecodedHead(s[i], k) + Decoded(s[next..])
  {
    assert s[i..][1..] == s[i + 1..];
    assert s[i..][1 + k..] == s[next..];
  }

  /** `decode_k8s_sa`. */
  method DecodeK8sSa(s: string) returns (ret: string)
    ensures ret == Decoded(s)
  {
    ret := "";
    var i := 0;
    while i < |s|
      invariant 0 <= i <= |s|
      invariant ret + Decoded(s[i..]) == Decoded(s)
      decreases |s| - i
    {
      ghost var k := LeadingZeros(s[i + 1..]);
      ghost var next := i + 1 + k;
      DecodedAt(s, i, k, next);
      ghost var head := DecodedHead(s[i], k);
      var c := s[i];
      var piece: string;
      if i == |s| - 1 {
        assert k == 0 && head == [c];
        piece := [c];
        i := i + 1;
      } else if s[i + 1] == '0' {
        piece, i := DecodeZeroRun(s, i);
      } else {
        assert k == 0 && head == [c];
        piece := [c];
        i := i + 1;
      }
      assert piece == head && i == next;
      StepInvariant(s, ret, piece, Decoded(s[i..]));
      ret := ret + piece;
    }
  }

  lemma StepInvariant(s: string, ret: string, piece: string, tail: string)
    requires ret + (piece + tail) == Decoded(s)
    ensures (ret + piece) + tail == Decoded(s)
  {
  }

  /** The inner loops of `decode_k8s_sa` for a character at `i` followed by a
      '0': count the run of zeros, emit the character (turned back by
      `merge_zero` when the run is odd) and one '0' per remaining pair. */
  method DecodeZeroRun(s: string, i: nat) returns (out: string, j: nat)
    requires i + 1 < |s| && s[i + 1] == '0'
    ensures out == DecodedHead(s[i], LeadingZeros(s[i + 1..]))
    ensures j == i + 1 + LeadingZeros(s[i + 1..])
  {
    var c := s[i];
    var nn := i + 2;
    var zeroCount := 1;
    while nn < |s|
      invariant i + 2 <= nn <= |s|
      invariant zeroCount == nn - (i + 1)
      invariant forall t :: i + 1 <= t < nn ==> s[t] == '0'
      decreases |s| - nn
    {
      if s[nn] == '0' {
        nn := nn + 1;
        zeroCount := zeroCount + 1;
      } else {
        break;
      }
    }
    RunLength(s[i + 1..], zeroCount);
    if zeroCount % 2 == 1 {
      out := [MergeZero(c)];
      j := i + 2;
      zeroCount := zeroCount - 1;
    } else {
      out := [c];
      j := i + 1;
    }
    ghost var head := out;
    ghost var j0 := j;
    for t := 0 to zeroCount / 2
      invariant out == head + Zeros(t)
      invariant j == j0 + 2 * t
    {
      ZerosSnoc(t);
      out := out + "0";
      j := j + 2;
    }
  }

  lemma ZerosSnoc(n: nat)
    ensures Zeros(n + 1) == Zeros(n) + ['0']
  {
  }

  lemma ZerosCons(n: nat)
    ensures Zeros(n + 1) == ['0'] + Zeros(n)
  {
  }

  /** A run of `k` zeros followed by the end or a non-zero has length `k`. */
  lemma RunLength(s: string, k: nat)
    requires k <= |s|
    requires forall j :: 0 <= j < k ==> s[j] == '0'
    requires k < |s| ==> s[k] != '0'
    ensures LeadingZeros(s) == k
  {
  }

  lemma {:induction false} LeadingZerosOfZeros(n: nat, t: string)
    requires t == [] || t[0] != '0'
    ensures LeadingZeros(Zeros(n) + t) == n
  {
    RunLength(Zeros(n) + t, n);
  }

  lemma {:induction false} EncodedZeros(m: nat)
    ensures Encoded(Zeros(m)) == Zeros(2 * m)
  {
    if m > 0 {
      assert Zeros(m) == ['0'] + Zeros(m - 1);
      EncodedCons('0', Zeros(m - 1));
      EncodedZeros(m - 1);
      assert Zeros(2 * m) == "00" + Zeros(2 * (m - 1)) by {
        assert Zeros(2 * m) == ['0'] + (['0'] + Zeros(2 * m - 2));
      }
    }
  }

  /** The encoding of a name that does not start with '0' does not start with '0'. */
  lemma {:induction false} EncodedHead(rest: string)
    requires forall i :: 0 <= i < |rest| ==> NameChar(rest[i])
    requires rest == [] || rest[0] != '0'
    ensures Encoded(rest) == [] || Encoded(rest)[0] != '0'
  {
    if rest != [] {
      EncodedCons(rest[0], rest[1..]);
      assert [rest[0]] + rest[1..] == rest;
      var e := EncodeChar(rest[0]);
      EncodeCharHead(rest[0]);
      assert (e + Encoded(rest[1..]))[0] == e[0];
    }
  }

  /** A name character other than '0' is encoded starting with something else than '0'. */
  lemma EncodeCharHead(c: char)
    requires NameChar(c) && c != '0'
    ensures |EncodeChar(c)| > 0 && EncodeChar(c)[0] != '0'
  {
  }

  /** A character followed by a run of `n` zeros and then something that does
      not start with '0' decodes in one step. */
  lemma {:induction false} DecodedRun(x: char, n: nat, er: string)
    requires er == [] || er[0] != '0'
    ensures Decoded([x] + (Zeros(n) + er)) == DecodedHead(x, n) + Decoded(er)
  {
    var e := [x] + (Zeros(n) + er);
    assert e[1..] == Zeros(n) + er;
    LeadingZerosOfZeros(n, er);
    assert e[1 + n..] == er;
  }

  lemma HeadEven(c: char, m: nat)
    ensures DecodedHead(c, 2 * m) == [c] + Zeros(m)
  {
  }

  lemma HeadOdd(c: char, m: nat)
    ensures DecodedHead(c, 2 * m + 1) == [MergeZero(c)] + Zeros(m)
  {
  }

  /** A pass-through character, followed by an encoded run of `m` zeros and an
      encoding that does not start with '0', decodes back. */
  lemma DecodePassthrough(c: char, m: nat, er: string)
    requires Passthrough(c)
    requires er == [] || er[0] != '0'
    ensures Decoded(EncodeChar(c) + (Zeros(2 * m) + er)) == [c] + (Zeros(m) + Decoded(er))
  {
    HeadEven(c, m);
    DecodedRun(c, 2 * m, er);
    AppendAssoc([c], Zeros(m), Decoded(er));
  }

  /** The same for an upper-case letter, '0' or '_', whose encoding ends in a
      marker zero that makes the run odd. */
  lemma DecodeMarked(c: char, m: nat, er: string)
    requires NameChar(c) && !Passthrough(c)
    requires er == [] || er[0] != '0'
    ensures Decoded(EncodeChar(c) + (Zeros(2 * m) + er)) == [c] + (Zeros(m) + Decoded(er))
  {
    var d := EncodeChar(c)[0];
    MarkedInput(c, d, m, er);
    DecodeOddRun(c, d, m, er);
  }

  /** A marked encoding joins the following run of zeros. */
  lemma MarkedInput(c: char, d: char, m: nat, er: string)
    requires NameChar(c) && !Passthrough(c) && d == EncodeChar(c)[0]
    ensures MergeZero(d) == c
    ensures EncodeChar(c) + (Zeros(2 * m) + er) == [d] + (Zeros(2 * m + 1) + er)
  {
    assert EncodeChar(c) == [d, '0'];
    ZerosCons(2 * m);
    AppendAssoc([d], ['0'], Zeros(2 * m) + er);
    AppendAssoc(['0'], Zeros(2 * m), er);
  }

  /** An odd run after `d` decodes to the merged character and half the zeros. */
  lemma DecodeOddRun(c: char, d: char, m: nat, er: string)
    requires MergeZero(d) == c
    requires er == [] || er[0] != '0'
    ensures Decoded([d] + (Zeros(2 * m + 1) + er)) == [c] + (Zeros(m) + Decoded(er))
  {
    DecodedRun(d, 2 * m + 1, er);
    HeadOdd(d, m);
    AppendAssoc([c], Zeros(m), Decoded(er));
  }

  /** The encoding of any name character followed by an encoded run of zeros decodes back. */
  lemma DecodePiece(c: char, m: nat, er: string)
    requires NameChar(c)
    requires er == [] || er[0] != '0'
    ensures Decoded(EncodeChar(c) + (Zeros(2 * m) + er)) == [c] + (Zeros(m) + Decoded(er))
  {
    if Passthrough(c) {
      DecodePassthrough(c, m, er);
    } else {
      DecodeMarked(c, m, er);
    }
  }

  /** A non-empty name is its first character, the run of zeros after it and a
      rest that does not start with '0'. */
  lemma SplitName(name: string)
    requires name != []
    requires forall i :: 0 <= i < |name| ==> NameChar(name[i])
    ensures var m := LeadingZeros(name[1..]);
            var rest := name[1 + m..];
            && name == [name[0]] + (Zeros(m) + rest)
            && (rest == [] || rest[0] != '0')
            && (forall i :: 0 <= i < |rest| ==> NameChar(rest[i]))
  {
    var m := LeadingZeros(name[1..]);
    var rest := name[1 + m..];
    assert name[1..][..m] == Zeros(m);
    assert name[1..] == name[1..][..m] + rest;
    if rest != [] {
      assert rest[0] == name[1..][m];
    }
    forall i | 0 <= i < |rest| ensures NameChar(rest[i]) {
      assert rest[i] == name[1 + m + i];
    }
  }

  lemma EncodedSplit(c: char, m: nat, rest: string)
    ensures Encoded([c] + (Zeros(m) + rest)) == EncodeChar(c) + (Zeros(2 * m) + Encoded(rest))
  {
    EncodedCons(c, Zeros(m) + rest);
    EncodedAppend(Zeros(m), rest);
    EncodedZeros(m);
  }

  /** One step of the round trip: the first character and the zeros after it
      decode back, and the rest is left to the recursion. */
  lemma DecodeEncodeStep(name: string)
    requires name != []
    requires forall i :: 0 <= i < |name| ==> NameChar(name[i])
    ensures var m := LeadingZeros(name[1..]);
            var rest := name[1 + m..];
            && name == [name[0]] + (Zeros(m) + rest)
            && (forall i :: 0 <= i < |rest| ==> NameChar(rest[i]))
            && Decoded(Encoded(name)) == [name[0]] + (Zeros(m) + Decoded(Encoded(rest)))
  {
    var c := name[0];
    var m := LeadingZeros(name[1..]);
    var rest := name[1 + m..];
    SplitName(name);
    var er := Encoded(rest);
    ghost var en := Encoded(name);
    assert en == EncodeChar(c) + (Zeros(2 * m) + er) by { EncodedSplit(c, m, rest); }
    EncodedHead(rest);
    DecodePiece(c, m, er);
  }

  /** Round trip: decoding the encoding of a name over [A-Za-z0-9_.-] gives the name back. */
  lemma {:induction false} DecodeEncode(name: string)
    requires forall i :: 0 <= i < |name| ==> NameChar(name[i])
    ensures Decoded(Encoded(name)) == name
    decreases |name|
  {
    if name != [] {
      var m := LeadingZeros(name[1..]);
      var rest := name[1 + m..];
      DecodeEncodeStep(name);
      DecodeEncode(rest);
      assert Decoded(Encoded(name)) == [name[0]] + (Zeros(m) + rest);
    }
  }

  /** The last character of the input is copied verbatim unless it is part of a zero run. */
  lemma {:induction false} DecodedLast(s: string)
    requires |s| > 0 && s[|s| - 1] != '0'
    ensures |Decoded(s)| > 0 && Decoded(s)[|Decoded(s)| - 1] == s[|s| - 1]
    decreases |s|
  {
    var k := LeadingZeros(s[1..]);
    DecodedAt(s, 0, k, 1 + k);
    assert s[0..] == s;
    var head := DecodedHead(s[0], k);
    var tail := Decoded(s[1 + k..]);
    assert Decoded(s) == head + tail;
    if 1 + k < |s| {
      DecodedLast(s[1 + k..]);
      assert (head + tail)[|head + tail| - 1] == tail[|tail| - 1];
    } else {
      assert k == 0;
      assert head == [s[0]];
      assert s[1 + k..] == [];
    }
  }

  // ---------------------------------------------------------------------
  // Pagination
  // ---------------------------------------------------------------------

  datatype PageDict = PageDict(current: int, prev: Option<int>, next: Option<int>,
                               pages: int, limit: int, offset: int, total: int)

  /** `get_pagination`. A zero limit raises ZeroDivisionError. */
  function GetPagination(total: int, limit: int, offset: int): (r: Result<PageDict>)
    ensures r.Err? <==> limit == 0
    ensures r.Ok? ==> r.value.limit == limit && r.value.offset == offset && r.value.total == total
    ensures r.Ok? ==> (r.value.prev.None? <==> r.value.current <= 1)
    ensures r.Ok? && r.value.prev.Some? ==> r.value.prev.value == r.value.current - 1
    ensures r.Ok? ==> (r.value.next.None? <==> r.value.current + 1 > r.value.pages)
    ensures r.Ok? && r.value.next.Some? ==> r.value.next.value == r.value.current + 1
  {
    if limit == 0 then Err(Crash("ZeroDivisionError"))
    else
      var ceil := PyMath.CeilDiv(offset, limit);
      var page := if PyMath.Mod(offset, limit) == 0 then ceil + 1 else ceil;
      var pages := PyMath.CeilDiv(total, limit);
      Ok(PageDict(page,
                  if page - 1 > 0 then Some(page - 1) else None,
                  if page + 1 <= pages then Some(page + 1) else None,
                  pages, limit, offset, total))
  }

  /** For a non-negative offset and a positive limit the current page is the
      1-based page holding the offset and the page count is the ceiling. */
  lemma PaginationPages(total: int, limit: int, offset: int)
    requires offset >= 0 && limit > 0
    ensures GetPagination(total, limit, offset).Ok?
    ensures GetPagination(total, limit, offset).value.current == offset / limit + 1
    ensures GetPagination(total, limit, offset).value.pages * limit >= total
    ensures GetPagination(total, limit, offset).value.pages * limit < total + limit
  {
    PyMath.PositiveDivisor(offset, limit);
  }

  /** `list_pagination`: a missing limit is 10, a missing offset 0. */
  function ListPagination<T>(outList: seq<T>, limit: Option<int>, offset: Option<int>): (r: Result<(seq<T>, PageDict)>)
    ensures r.Err? <==> limit == Some(0)
    ensures r.Ok? ==> r.value.1.total == |outList| && |r.value.0| <= |outList|
  {
    var l := if limit.None? then 10 else limit.value;
    var o := if offset.None? then 0 else offset.value;
    match GetPagination(|outList|, l, o)
    case Err(e) => Err(e)
    case Ok(page) =>
      Ok((if l - o <= |outList| then PyMath.Slice(outList, o, o + l) else outList, page))
  }

  /** The page dict describes the whole list; the rows are the requested
      window when the window starts inside the list and the whole list otherwise. */
  lemma ListPaginationWindow<T>(outList: seq<T>, limit: Option<int>, offset: Option<int>)
    requires limit != Some(0)
    ensures var l := if limit.None? then 10 else limit.value;
            var o := if offset.None? then 0 else offset.value;
            var r := ListPagination(outList, limit, offset);
            && r.Ok?
            && r.value.1 == GetPagination(|outList|, l, o).value
            && r.value.1.total == |outList|
            && (l - o <= |outList| ==> r.value.0 == PyMath.Slice(outList, o, o + l))
            && (l - o > |outList| ==> r.value.0 == outList)
  {
  }

  /** A project id as the callers pass it: an int or a string. */
  datatype ProjectRef = IntId(id: int) | StrId(text: string)

  /** `is_dummy_project`: the id converted by `int()` equals -1; a string that
      is not an integer raises ValueError. */
  function IsDummyProject(p: ProjectRef): (r: Result<bool>)
    ensures p.IntId? ==> r == Ok(p.id == -1)
    ensures p.StrId? ==> (r.Err? <==> ParseInt(p.text).None?)
    ensures p.StrId? && r.Ok? ==> (r.value <==> ParseInt(p.text) == Some(-1))
  {
    match p
    case IntId(i) => Ok(i == -1)
    case StrId(t) =>
      match ParseInt(t)
      case None => Err(ValueErr("invalid literal for int()"))
      case Some(i) => Ok(i == -1)
  }
}
