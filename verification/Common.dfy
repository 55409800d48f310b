/** Types shared by the models: outcomes, wire bytes, socket addresses, saturating
    machine arithmetic, and first-occurrence deduplication. */
module Common {

  datatype Option<+T> = None | Some(value: T)

  datatype Result<+T, +E> = Ok(value: T) | Err(error: E)

  type byte = x: int | 0 <= x < 0x100
  type u8 = byte
  type u16 = x: int | 0 <= x < 0x1_0000

  const USIZE_MAX: nat := 0xFFFF_FFFF_FFFF_FFFF

  /** Addresses carry their octets; flow labels and scope ids are always zero here. */
  datatype IpAddr = V4(octets: seq<byte>) | V6(octets: seq<byte>)

  datatype SocketAddr = SocketAddr(ip: IpAddr, port: u16)

  /** What a DNS question, a cache entry and an in-flight slot are keyed by. */
  datatype Key = Key(host: string, qtype: u16)

  function Min(a: int, b: int): int { if a <= b then a else b }

  function Max(a: int, b: int): int { if a >= b then a else b }

  function SaturatingMul(a: nat, b: nat): nat { Min(a * b, USIZE_MAX) }

  function SaturatingAdd(a: nat, b: nat): nat { Min(a + b, USIZE_MAX) }

  function SaturatingSub(a: nat, b: nat): nat { Max(a - b, 0) }

  // ----- Big-endian 16-bit fields

  function FromBe(hi: byte, lo: byte): u16 { hi * 0x100 + lo }

  function ToBe(x: u16): seq<byte> { [x / 0x100, x % 0x100] }

  // ----- First-occurrence deduplication

  /** `xs` with `x` pushed unless it is already there: the body of every
      "contains, else push" loop in the program. */
  function PushNew<T(==)>(xs: seq<T>, x: T): seq<T> {
    if x in xs then xs else xs + [x]
  }

  function Distinct<T(==)>(s: seq<T>): seq<T> {
    if s == [] then [] else PushNew(Distinct(s[..|s| - 1]), s[|s| - 1])
  }

  ghost predicate NoDuplicates<T>(s: seq<T>) {
    forall i, j :: 0 <= i < j < |s| ==> s[i] != s[j]
  }

  /** The positions `at` pick `d` out of `s` in order, each at its first occurrence. */
  ghost predicate FirstOccurrences<T>(s: seq<T>, d: seq<T>, at: seq<nat>) {
    && |at| == |d|
    && (forall i :: 0 <= i < |at| ==> at[i] < |s| && s[at[i]] == d[i] && d[i] !in s[..at[i]])
    && (forall i, j :: 0 <= i < j < |at| ==> at[i] < at[j])
  }

  /** `Distinct` is characterised without its recursion: it has no duplicates, the same
      elements, and lists them in the order in which they first occur. */
  lemma {:induction false} DistinctIsFirstOccurrences<T>(s: seq<T>) returns (at: seq<nat>)
    ensures NoDuplicates(Distinct(s))
    ensures forall x :: x in Distinct(s) <==> x in s
    ensures FirstOccurrences(s, Distinct(s), at)
  {
    if s == [] {
      at := [];
    } else {
      var front, x := s[..|s| - 1], s[|s| - 1];
      at := DistinctIsFirstOccurrences(front);
      assert s == front + [x];
      forall i | 0 <= i < |at| ensures s[..at[i]] == front[..at[i]] {
      }
      if x !in Distinct(front) {
        assert s[..|front|] == front;
        at := at + [|front|];
      }
    }
  }

  lemma {:induction false} DistinctIdempotent<T>(s: seq<T>)
    requires NoDuplicates(s)
    ensures Distinct(s) == s
  {
    if s != [] {
      var front := s[..|s| - 1];
      assert s == front + [s[|s| - 1]];
      DistinctIdempotent(front);
    }
  }

  // ----- Picking values out of a sequence

  function Somes<T>(os: seq<Option<T>>): seq<T> {
    if os == [] then []
    else Somes(os[..|os| - 1]) + match os[|os| - 1] { case None => [] case Some(x) => [x] }
  }

  /** The positions `pos` are all those that hold a value, in order, and `xs` are their values. */
  ghost predicate Picks<T>(os: seq<Option<T>>, xs: seq<T>, pos: seq<nat>) {
    && |pos| == |xs|
    && (forall i, j :: 0 <= i < j < |pos| ==> pos[i] < pos[j])
    && (forall i :: 0 <= i < |pos| ==> pos[i] < |os| && os[pos[i]] == Some(xs[i]))
    && (forall j :: 0 <= j < |os| && os[j].Some? ==> j in pos)
  }

  lemma {:induction false} SomesPicks<T>(os: seq<Option<T>>) returns (pos: seq<nat>)
    ensures Picks(os, Somes(os), pos)
  {
    if os == [] {
      pos := [];
    } else {
      var front, o := os[..|os| - 1], os[|os| - 1];
      pos := SomesPicks(front);
      assert os == front + [o];
      if o.Some? {
        PickOneMore(front, Somes(front), pos, o.value);
        pos := pos + [|front|];
      } else {
        assert Somes(os) == Somes(front);
      }
    }
  }

  lemma PickOneMore<T>(os: seq<Option<T>>, xs: seq<T>, pos: seq<nat>, x: T)
    requires Picks(os, xs, pos)
    ensures Picks(os + [Some(x)], xs + [x], pos + [|os|])
  {
    forall j | 0 <= j <= |os| && (os + [Some(x)])[j].Some? ensures j in pos + [|os|] {
      if j < |os| {
        assert os[j].Some?;
      } else {
        assert (pos + [|os|])[|pos|] == j;
      }
    }
  }

  /** `ds` are the values in `os`, all of them, each once, where `at` says each occurs first. */
  ghost predicate FirstPicks<T>(os: seq<Option<T>>, ds: seq<T>, at: seq<nat>) {
    && |at| == |ds|
    && (forall i, j :: 0 <= i < j < |at| ==> at[i] < at[j])
    && (forall i :: 0 <= i < |at| ==> at[i] < |os| && os[at[i]] == Some(ds[i]))
    && (forall i, j :: 0 <= i < |at| && 0 <= j < at[i] < |os| ==> os[j] != Some(ds[i]))
    && (forall j :: 0 <= j < |os| && os[j].Some? ==> os[j].value in ds)
  }

  lemma DistinctSomes<T>(os: seq<Option<T>>) returns (at: seq<nat>)
    ensures FirstPicks(os, Distinct(Somes(os)), at)
  {
    var pos := SomesPicks(os);
    var first := DistinctIsFirstOccurrences(Somes(os));
    at := seq(|first|, i requires 0 <= i < |first| => pos[first[i]]);
    ComposeFirst(os, Somes(os), pos, Distinct(Somes(os)), first, at);
  }

  lemma ComposeFirst<T>(os: seq<Option<T>>, xs: seq<T>, pos: seq<nat>, ds: seq<T>, first: seq<nat>, at: seq<nat>)
    requires Picks(os, xs, pos) && FirstOccurrences(xs, ds, first)
    requires forall x :: x in ds <==> x in xs
    requires |at| == |first| && forall i :: 0 <= i < |at| ==> at[i] == pos[first[i]]
    ensures FirstPicks(os, ds, at)
  {
    forall i, j | 0 <= i < |at| && 0 <= j < at[i] < |os| ensures os[j] != Some(ds[i]) {
      if os[j].Some? {
        var m :| 0 <= m < |pos| && pos[m] == j;
        assert m < first[i];
        assert xs[m] in xs[..first[i]];
      }
    }
    forall j | 0 <= j < |os| && os[j].Some? ensures os[j].value in ds {
      var m :| 0 <= m < |pos| && pos[m] == j;
      assert xs[m] == os[j].value;
    }
  }
}
