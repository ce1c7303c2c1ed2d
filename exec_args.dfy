/**
 * The argument area `exec` builds in a new process's heap: the argument strings
 * back to back, then, at the next multiple of 8, an array of `&str` (pointer and
 * length, one little-endian `usize` each) referring to the copies.
 */
module ExecArgs {
  import opened Memory

  const USIZE_MODULUS: nat := U64_MODULUS
  /** The block `exec` takes from the new heap for the arguments. */
  const ARGS_AREA_SIZE: nat := 1024

  /** A `&str` as it lies in memory: a pointer and a length, one `usize` each. */
  datatype StrRef = StrRef(ptr: nat, len: nat)

  /** The argument strings back to back. */
  function Concat<T>(args: seq<seq<T>>): seq<T> {
    if args == [] then [] else args[0] + Concat(args[1..])
  }

  lemma TailOfAppend<T>(xs: seq<T>, ys: seq<T>)
    requires xs != []
    ensures (xs + ys)[1..] == xs[1..] + ys
  {
  }

  /** Concatenating two runs of arguments concatenates their bytes. */
  lemma {:induction false} ConcatAppend<T>(xs: seq<seq<T>>, ys: seq<seq<T>>)
    ensures Concat(xs + ys) == Concat(xs) + Concat(ys)
  {
    if xs == [] {
      assert xs + ys == ys;
    } else {
      ConcatAppend(xs[1..], ys);
      TailOfAppend(xs, ys);
    }
  }

  /** Appending one more argument appends its bytes. */
  lemma ConcatSnoc<T>(args: seq<seq<T>>, i: nat)
    requires i < |args|
    ensures Concat(args[..i + 1]) == Concat(args[..i]) + args[i]
  {
    assert args[..i + 1] == args[..i] + [args[i]];
    ConcatAppend(args[..i], [args[i]]);
    assert Concat([args[i]]) == args[i] + Concat([]);
  }

  /** The `&str` values of the copied arguments when the copies start at `base`. */
  function StrRefs<T>(args: seq<seq<T>>, base: nat): (refs: seq<StrRef>)
    ensures |refs| == |args|
  {
    if args == [] then [] else [StrRef(base, |args[0]|)] + StrRefs(args[1..], base + |args[0]|)
  }

  /** The `&str` values of two runs of copies, the second right after the first. */
  lemma {:induction false} StrRefsAppend<T>(xs: seq<seq<T>>, ys: seq<seq<T>>, base: nat)
    ensures StrRefs(xs + ys, base) == StrRefs(xs, base) + StrRefs(ys, base + |Concat(xs)|)
  {
    if xs == [] {
      assert xs + ys == ys;
    } else {
      StrRefsAppend(xs[1..], ys, base + |xs[0]|);
      TailOfAppend(xs, ys);
    }
  }

  /** Copying one more argument adds the `&str` for it, right after the earlier copies. */
  lemma StrRefsSnoc<T>(args: seq<seq<T>>, base: nat, i: nat)
    requires i < |args|
    ensures StrRefs(args[..i + 1], base) == StrRefs(args[..i], base) + [StrRef(base + |Concat(args[..i])|, |args[i]|)]
  {
    assert args[..i + 1] == args[..i] + [args[i]];
    StrRefsAppend(args[..i], [args[i]], base);
  }

  /** The bytes of an array of `&str`. */
  function EncodeStrRefs(refs: seq<StrRef>): (s: seq<Byte>)
    ensures |s| == 16 * |refs|
  {
    if refs == [] then [] else EncodeU64(refs[0].ptr) + EncodeU64(refs[0].len) + EncodeStrRefs(refs[1..])
  }

  /** The first `n` `&str` values in the bytes of an array of them. */
  function DecodeStrRefs(s: seq<Byte>, n: nat): (refs: seq<StrRef>)
    requires 16 * n <= |s|
    ensures |refs| == n
  {
    if n == 0 then [] else [StrRef(DecodeU64(s[..8]), DecodeU64(s[8..16]))] + DecodeStrRefs(s[16..], n - 1)
  }

  /** Every pointer and length of `refs` fits in a `usize`. */
  predicate FitsUsize(refs: seq<StrRef>) {
    forall i :: 0 <= i < |refs| ==> refs[i].ptr < USIZE_MODULUS && refs[i].len < USIZE_MODULUS
  }

  /** An array of `&str` reads back as written. */
  lemma {:induction false} StrRefsRoundTrip(refs: seq<StrRef>)
    requires FitsUsize(refs)
    ensures DecodeStrRefs(EncodeStrRefs(refs), |refs|) == refs
  {
    if refs != [] {
      var s := EncodeStrRefs(refs);
      assert s[..8] == EncodeU64(refs[0].ptr);
      assert s[8..16] == EncodeU64(refs[0].len);
      assert s[16..] == EncodeStrRefs(refs[1..]);
      U64RoundTrip(refs[0].ptr);
      U64RoundTrip(refs[0].len);
      assert FitsUsize(refs[1..]) by {
        forall i | 0 <= i < |refs| - 1 ensures refs[1..][i] == refs[i + 1] { }
      }
      StrRefsRoundTrip(refs[1..]);
    }
  }

  /**
   * Where `exec` puts the array of `&str`: `addr += align - (addr % align)` with
   * `align_of::<&str>() == 8`, the next multiple of 8 strictly past the end of the
   * strings.  A `&str` itself takes 16 bytes, a pointer then a length.
   */
  function ArgsArrayAddr(end: nat): (a: nat)
    ensures a % 8 == 0
    ensures end < a <= end + 8
  {
    end + (8 - end % 8)
  }

  /** The `n` strings an array of `&str` at `at` refers to (`slice::from_raw_parts`). */
  function ReadArgs(mem: Mem, at: nat, n: nat): (args: seq<seq<Byte>>)
    ensures |args| == n
  {
    var refs := DecodeStrRefs(Load(mem, at, 16 * n), n);
    seq(n, i requires 0 <= i < n => Load(mem, refs[i].ptr, refs[i].len))
  }

  /** Strings whose array decodes to `refs`, each of which points at the expected bytes. */
  lemma ReadArgsFrom(mem: Mem, at: nat, refs: seq<StrRef>, args: seq<seq<Byte>>)
    requires |refs| == |args| && DecodeStrRefs(Load(mem, at, 16 * |args|), |args|) == refs
    requires forall i :: 0 <= i < |args| ==> Load(mem, refs[i].ptr, refs[i].len) == args[i]
    ensures ReadArgs(mem, at, |args|) == args
  {
  }

  /** A part of the strings, read back after the array is written past them. */
  lemma LoadBelowStore(mem: Mem, base: nat, strings: seq<Byte>, at: nat, encoded: seq<Byte>, ptr: nat, len: nat)
    requires base <= ptr && ptr + len <= base + |strings| <= at
    ensures Load(Store(Store(mem, base, strings), at, encoded), ptr, len) == strings[ptr - base..ptr - base + len]
  {
    LoadOutside(Store(mem, base, strings), at, encoded, ptr, len);
    LoadStored(mem, base, strings, ptr - base, len);
  }

  /**
   * The layout `exec` leaves behind: the argument strings copied to `base` as
   * `strings` and, at `at` past them, an array `encoded` of `&str` decoding to
   * `refs`, each of which points at its argument within the copies.
   */
  predicate LaidOut(base: nat, strings: seq<Byte>, at: nat, encoded: seq<Byte>,
                    refs: seq<StrRef>, args: seq<seq<Byte>>)
  {
    && base + |strings| <= at
    && |encoded| == 16 * |args| && DecodeStrRefs(encoded, |args|) == refs && |refs| == |args|
    && Locates(base, strings, refs, args)
  }

  /** `r` points, within `strings` copied to `base`, at the bytes of `arg`. */
  predicate LocatesAt<T(==)>(base: nat, strings: seq<T>, r: StrRef, arg: seq<T>) {
    base <= r.ptr && r.ptr + r.len <= base + |strings|
    && strings[r.ptr - base..r.ptr - base + r.len] == arg
  }

  /** Each of `refs` points, within `strings` copied to `base`, at its argument. */
  predicate Locates<T(==)>(base: nat, strings: seq<T>, refs: seq<StrRef>, args: seq<seq<T>>)
    requires |refs| == |args|
  {
    forall i :: 0 <= i < |args| ==> LocatesAt(base, strings, refs[i], args[i])
  }

  /**
   * The new process finds its arguments intact: whatever memory held before, once
   * the strings and then the array of `&str` past them are written as `LaidOut`
   * describes, reading `|args|` strings through the array gives `args`.
   */
  lemma ReadArgsAfterStores(mem: Mem, base: nat, strings: seq<Byte>, at: nat, encoded: seq<Byte>,
                            refs: seq<StrRef>, args: seq<seq<Byte>>)
    requires LaidOut(base, strings, at, encoded, refs, args)
    ensures ReadArgs(Store(Store(mem, base, strings), at, encoded), at, |args|) == args
  {
    var m1 := Store(mem, base, strings);
    var m2 := Store(m1, at, encoded);
    LoadStoredAll(m1, at, encoded);
    forall i | 0 <= i < |args|
      ensures Load(m2, refs[i].ptr, refs[i].len) == args[i]
    {
      assert LocatesAt(base, strings, refs[i], args[i]);
      LoadBelowStore(mem, base, strings, at, encoded, refs[i].ptr, refs[i].len);
    }
    ReadArgsFrom(m2, at, refs, args);
  }

  lemma SliceAfterPrefix<T>(x: seq<T>, y: seq<T>, k: nat, len: nat)
    requires k + len <= |y|
    ensures (x + y)[|x| + k..|x| + k + len] == y[k..k + len]
  {
  }

  /** A `&str` into the later copies also points into all of them, shifted past the first. */
  lemma LocatesAfterFirst<T>(args: seq<seq<T>>, base: nat, i: nat)
    requires 0 < i < |args|
    requires LocatesAt(base + |args[0]|, Concat(args[1..]), StrRefs(args[1..], base + |args[0]|)[i - 1], args[i])
    ensures LocatesAt(base, Concat(args), StrRefs(args, base)[i], args[i])
  {
    var x, y := args[0], Concat(args[1..]);
    var next := base + |x|;
    var r := StrRefs(args[1..], next)[i - 1];
    assert StrRefs(args, base)[i] == r;
    assert Concat(args) == x + y;
    var k := r.ptr - next;
    SliceAfterPrefix(x, y, k, r.len);
    assert r.ptr - base == |x| + k;
  }

  /** Each `&str` built for the copies points into the concatenation, at its own argument. */
  lemma {:induction false} StrRefsLocate<T>(args: seq<seq<T>>, base: nat, i: nat)
    requires i < |args|
    ensures LocatesAt(base, Concat(args), StrRefs(args, base)[i], args[i])
  {
    if i == 0 {
      assert (args[0] + Concat(args[1..]))[0..|args[0]|] == args[0];
    } else {
      StrRefsLocate(args[1..], base + |args[0]|, i - 1);
      LocatesAfterFirst(args, base, i);
    }
  }

  /** All the `&str` built for the copies point at their arguments. */
  lemma StrRefsLocateAll<T>(args: seq<seq<T>>, base: nat)
    ensures Locates(base, Concat(args), StrRefs(args, base), args)
  {
    forall i | 0 <= i < |args|
      ensures LocatesAt(base, Concat(args), StrRefs(args, base)[i], args[i])
    {
      StrRefsLocate(args, base, i);
    }
  }

  /** When the copies end below 2^64, the array of `&str` for them reads back as built. */
  lemma StrRefsDecode(args: seq<seq<Byte>>, base: nat)
    requires base + |Concat(args)| < USIZE_MODULUS
    ensures DecodeStrRefs(EncodeStrRefs(StrRefs(args, base)), |args|) == StrRefs(args, base)
  {
    var refs := StrRefs(args, base);
    forall i | 0 <= i < |refs|
      ensures refs[i].ptr < USIZE_MODULUS && refs[i].len < USIZE_MODULUS
    {
      StrRefsLocate(args, base, i);
    }
    StrRefsRoundTrip(refs);
  }

  /**
   * What `exec` writes is the layout the new process reads: `args` copied back to
   * back from `base`, their `&str` at the next multiple of 8 past them.
   */
  lemma PackLaidOut(args: seq<seq<Byte>>, base: nat)
    requires base + |Concat(args)| < USIZE_MODULUS
    ensures var strings := Concat(args); var refs := StrRefs(args, base);
      LaidOut(base, strings, ArgsArrayAddr(base + |strings|), EncodeStrRefs(refs), refs, args)
  {
    StrRefsDecode(args, base);
    StrRefsLocateAll(args, base);
  }
}
