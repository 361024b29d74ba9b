/** Choosing the input files of a run and cutting them into batches
    (`QshConverter.Convert(List<string>)` and `CheckFileName`). */
module FileSelection {
  import Wrappers
  import opened QshTypes

  /** Number of files converted concurrently in one batch. */
  const DataPart: nat := 700

  // ---------------------------------------------------------------------
  // File names
  // ---------------------------------------------------------------------

  /** `sub` occurs in `s` starting at index `i`. */
  ghost predicate OccursAt(s: string, sub: string, i: int)
  {
    0 <= i && i + |sub| <= |s| && s[i..i + |sub|] == sub
  }

  /** Ordinal `string.Contains`: compares `sub` with every suffix's prefix. */
  predicate Contains(s: string, sub: string)
    decreases |s|
  {
    |sub| <= |s| && (s[..|sub|] == sub || Contains(s[1..], sub))
  }

  /** `Contains` finds an occurrence exactly when there is one. */
  lemma {:induction false} ContainsIffOccurs(s: string, sub: string)
    ensures Contains(s, sub) <==> exists i :: OccursAt(s, sub, i)
    decreases |s|
  {
    if |sub| <= |s| {
      if s[..|sub|] == sub {
        assert OccursAt(s, sub, 0);
      } else {
        ContainsIffOccurs(s[1..], sub);
        if Contains(s[1..], sub) {
          var i :| OccursAt(s[1..], sub, i);
          assert s[1..][i..i + |sub|] == s[i + 1..i + 1 + |sub|];
          assert OccursAt(s, sub, i + 1);
        }
        if exists i :: OccursAt(s, sub, i) {
          var i :| OccursAt(s, sub, i);
          assert i != 0;
          assert s[1..][i - 1..i - 1 + |sub|] == s[i..i + |sub|];
          assert OccursAt(s[1..], sub, i - 1);
        }
      }
    }
  }

  /** The data-kind tag a file's extensionless name must contain, if any. */
  function KindTag(kind: SourceDataType): (tag: Wrappers.Option<string>)
    ensures tag.Some? <==> kind != AuxInfo
  {
    match kind
    case OrderLog => Wrappers.Some("OrdLog")
    case Deals => Wrappers.Some("Deals")
    case Quotes => Wrappers.Some("Quotes")
    case AuxInfo => Wrappers.None
  }

  /** Whether a file whose extensionless name is `name` belongs to a run of
      the given kind. */
  predicate CheckFileName(kind: SourceDataType, name: string)
    ensures CheckFileName(kind, name) <==> KindTag(kind).None? || Contains(name, KindTag(kind).value)
  {
    match kind
    case OrderLog => Contains(name, "OrdLog")
    case Deals => Contains(name, "Deals")
    case Quotes => Contains(name, "Quotes")
    case AuxInfo => true
  }

  /** A file is accepted exactly when its name contains the kind's tag; a
      kind without a tag accepts every file. */
  lemma CheckFileNameMeansTag(kind: SourceDataType, name: string)
    ensures CheckFileName(kind, name) <==>
              (KindTag(kind).None? || exists i :: OccursAt(name, KindTag(kind).value, i))
  {
    if kind != AuxInfo {
      ContainsIffOccurs(name, KindTag(kind).value);
    }
  }

  // ---------------------------------------------------------------------
  // Filtering
  // ---------------------------------------------------------------------

  /** The files of the run, in their original order. `stemOf` is
      `Path.GetFileNameWithoutExtension`. */
  function FilterFiles(kind: SourceDataType, stemOf: string -> string, files: seq<string>): (r: seq<string>)
    ensures forall f :: f in r <==> f in files && CheckFileName(kind, stemOf(f))
    ensures |r| <= |files|
  {
    if |files| == 0 then []
    else
      var f := files[|files| - 1];
      FilterFiles(kind, stemOf, files[..|files| - 1]) + (if CheckFileName(kind, stemOf(f)) then [f] else [])
  }

  /** Filtering commutes with concatenation: it keeps the relative order of
      the files it keeps. */
  lemma {:induction false} FilterAppend(kind: SourceDataType, stemOf: string -> string, a: seq<string>, b: seq<string>)
    ensures FilterFiles(kind, stemOf, a + b) == FilterFiles(kind, stemOf, a) + FilterFiles(kind, stemOf, b)
    decreases |b|
  {
    if |b| == 0 {
      assert a + b == a;
    } else {
      var b' := b[..|b| - 1];
      assert (a + b)[..|a + b| - 1] == a + b';
      FilterAppend(kind, stemOf, a, b');
    }
  }

  /** A file list that is already filtered is left unchanged. */
  lemma {:induction false} FilterIdempotent(kind: SourceDataType, stemOf: string -> string, files: seq<string>)
    ensures FilterFiles(kind, stemOf, FilterFiles(kind, stemOf, files)) == FilterFiles(kind, stemOf, files)
    decreases |files|
  {
    if |files| > 0 {
      var init := files[..|files| - 1];
      var f := files[|files| - 1];
      var keep := if CheckFileName(kind, stemOf(f)) then [f] else [];
      FilterIdempotent(kind, stemOf, init);
      FilterAppend(kind, stemOf, FilterFiles(kind, stemOf, init), keep);
      if CheckFileName(kind, stemOf(f)) {
        assert FilterFiles(kind, stemOf, [f]) == FilterFiles(kind, stemOf, []) + [f];
      }
    }
  }

  // ---------------------------------------------------------------------
  // Batching
  // ---------------------------------------------------------------------

  /** Cuts the filtered file list into batches of `DataPart` files. The
      buffer left over after the loop is always appended as a last batch,
      even when it is empty. */
  method SplitIntoParts(files: seq<string>) returns (parts: seq<seq<string>>)
    ensures |parts| == |files| / DataPart + 1
    ensures forall k :: 0 <= k < |parts| - 1 ==> parts[k] == files[k * DataPart..(k + 1) * DataPart]
    ensures parts[|parts| - 1] == files[(|parts| - 1) * DataPart..]
    ensures forall k :: 0 <= k < |parts| - 1 ==> |parts[k]| == DataPart
    ensures |parts[|parts| - 1]| == |files| % DataPart
    ensures Flatten(parts) == files
  {
    parts := [];
    var buffer: seq<string> := [];
    ghost var start := 0;
    for i := 0 to |files|
      invariant start == |parts| * DataPart
      invariant |buffer| < DataPart && start + |buffer| == i
      invariant forall k :: 0 <= k < |parts| ==> parts[k] == files[k * DataPart..(k + 1) * DataPart]
      invariant buffer == files[start..i]
      invariant Flatten(parts) + buffer == files[..i]
    {
      assert files[..i + 1] == files[..i] + [files[i]];
      buffer := buffer + [files[i]];
      if |buffer| >= DataPart {
        NextBatchStart(|parts|);
        assert (parts + [buffer])[..|parts|] == parts;
        parts := parts + [buffer];
        buffer := [];
        start := start + DataPart;
      }
    }
    CountAndRest(|parts|, |buffer|, |files|);
    assert (parts + [buffer])[..|parts|] == parts;
    parts := parts + [buffer];
    assert files[..|files|] == files;
  }

  lemma NextBatchStart(n: int)
    ensures (n + 1) * DataPart == n * DataPart + DataPart
  {
  }

  /** `n` full batches and a rest shorter than a batch: `n` is the quotient
      and the rest the remainder. */
  lemma CountAndRest(n: int, rest: int, total: int)
    requires n >= 0 && 0 <= rest < DataPart && n * DataPart + rest == total
    ensures total / DataPart == n && total % DataPart == rest
  {
  }
}
