/**
 Renaming a Go module: import specs are edited in place, documents are rewritten wherever the old path stands between
 boundaries. Files are byte sequences; the Go parser's import spans are taken as given.
 */
module RenameModule {
  import opened Splice
  import Collections

  type Byte = b: int | 0 <= b < 256
  type Bytes = seq<Byte>

  const SLASH: Byte := 47

  /** Letters, digits and `-._~!/`. */
  predicate ModuleCharacter(b: Byte) {
    97 <= b <= 122 || 65 <= b <= 90 || 48 <= b <= 57 || b == 45 || b == 46 || b == 95 || b == 126 || b == 33 ||
        b == SLASH
  }

  predicate AllModule(path: Bytes) {
    forall i :: 0 <= i < |path| ==> ModuleCharacter(path[i])
  }

  const LOWER: set<char> :=
    {'a', 'b', 'c', 'd', 'e', 'f', 'g', 'h', 'i', 'j', 'k', 'l', 'm', 'n',
     'o', 'p', 'q', 'r', 's', 't', 'u', 'v', 'w', 'x', 'y', 'z'}

  const UPPER: set<char> :=
    {'A', 'B', 'C', 'D', 'E', 'F', 'G', 'H', 'I', 'J', 'K', 'L', 'M', 'N',
     'O', 'P', 'Q', 'R', 'S', 'T', 'U', 'V', 'W', 'X', 'Y', 'Z'}

  const DIGITS: set<char> := {'0', '1', '2', '3', '4', '5', '6', '7', '8', '9'}

  lemma IsLower(c: char)
    ensures 97 <= c as int <= 122 <==> c in LOWER
  {
  }

  lemma IsUpper(c: char)
    ensures 65 <= c as int <= 90 <==> c in UPPER
  {
  }

  /** The bytes of exactly these characters belong to a module path. */
  lemma ModuleCharactersListed(c: char)
    requires c as int < 256
    ensures ModuleCharacter(c as int) <==>
            c in LOWER || c in UPPER || c in DIGITS || c in {'-', '.', '_', '~', '!', '/'}
  {
    IsLower(c);
    IsUpper(c);
  }

  // ----- boundary-delimited occurrences

  /** What may follow an occurrence: nothing, a slash, or a byte that cannot belong to a module path. */
  predicate Boundary(rest: Bytes) {
    rest == [] || rest[0] == SLASH || !ModuleCharacter(rest[0])
  }

  predicate IsOccurrence(data: Bytes, i: nat, path: Bytes) {
    && i + |path| <= |data| && data[i..i + |path|] == path
    && (i == 0 || !ModuleCharacter(data[i - 1]))
    && Boundary(data[i + |path|..])
  }

  function Positions(data: Bytes, path: Bytes, from: nat): seq<nat>
    decreases |data| - from
  {
    if from >= |data| then []
    else (if IsOccurrence(data, from, path) then [from] else []) + Positions(data, path, from + 1)
  }

  function EditsAt(positions: seq<nat>, path: Bytes, target: Bytes): seq<Edit<Byte>> {
    seq(|positions|, i requires 0 <= i < |positions| => Edit(positions[i], positions[i] + |path|, target))
  }

  // ----- the scan, as a function of what is left and of whether the byte before it belongs to a path

  predicate Occurs(s: Bytes, inPath: bool, path: Bytes) {
    !inPath && path <= s && Boundary(s[|path|..])
  }

  function Renamed(s: Bytes, inPath: bool, current: Bytes, target: Bytes): Bytes
    requires current != []
    decreases |s|
  {
    if s == [] then []
    else if Occurs(s, inPath, current) then
      target + Renamed(s[|current|..], ModuleCharacter(current[|current| - 1]), current, target)
    else [s[0]] + Renamed(s[1..], ModuleCharacter(s[0]), current, target)
  }

  predicate InPath(data: Bytes, offset: nat)
    requires offset <= |data|
  {
    offset > 0 && ModuleCharacter(data[offset - 1])
  }

  function RenamedFrom(data: Bytes, offset: nat, current: Bytes, target: Bytes): Bytes
    requires current != [] && offset <= |data|
  {
    Renamed(data[offset..], InPath(data, offset), current, target)
  }

  // ----- the code

  predicate PathAt(data: Bytes, i: nat, path: Bytes) {
    i + |path| <= |data| && data[i..i + |path|] == path
  }

  /** `bytes.Index` on data[offset:]: the first place the path appears, boundary or not. */
  method Find(data: Bytes, offset: nat, path: Bytes) returns (index: int)
    requires offset <= |data|
    ensures index < 0 ==> forall i :: offset <= i <= |data| ==> !PathAt(data, i, path)
    ensures index >= 0 ==> offset <= index && PathAt(data, index, path) && forall i :: offset <= i < index ==>
            !PathAt(data, i, path)
  {
    for i := offset to |data| + 1
      invariant forall j :: offset <= j < i ==> !PathAt(data, j, path)
    {
      if PathAt(data, i, path) {
        return i;
      }
    }
    return -1;
  }

  lemma CopyOne(data: Bytes, offset: nat, current: Bytes, target: Bytes)
    requires current != [] && offset < |data| && !IsOccurrence(data, offset, current)
    ensures RenamedFrom(data, offset, current, target) ==
            [data[offset]] + RenamedFrom(data, offset + 1, current, target)
  {
    var s := data[offset..];
    assert s[1..] == data[offset + 1..];
    OccursHere(data, offset, current);
  }

  lemma OccursHere(data: Bytes, offset: nat, path: Bytes)
    requires offset <= |data|
    ensures Occurs(data[offset..], InPath(data, offset), path) <==> IsOccurrence(data, offset, path)
  {
    var s := data[offset..];
    if offset + |path| <= |data| {
      assert s[..|path|] == data[offset..offset + |path|];
      assert s[|path|..] == data[offset + |path|..];
    }
  }

  lemma HeadOf(data: Bytes, offset: nat, index: nat)
    requires offset < index <= |data|
    ensures data[offset..index] == [data[offset]] + data[offset + 1..index]
  {
  }

  lemma {:induction false} CopyUpTo(data: Bytes, offset: nat, index: nat, current: Bytes, target: Bytes)
    requires current != [] && offset <= index <= |data|
    requires forall i :: offset <= i < index ==> !PathAt(data, i, current)
    ensures RenamedFrom(data, offset, current, target) ==
            data[offset..index] + RenamedFrom(data, index, current, target)
    decreases index - offset
  {
    if offset < index {
      assert !PathAt(data, offset, current);
      CopyOne(data, offset, current, target);
      CopyUpTo(data, offset + 1, index, current, target);
      HeadOf(data, offset, index);
      Collections.Assoc([data[offset]], data[offset + 1..index], RenamedFrom(data, index, current, target));
    }
  }

  lemma ReplaceOne(data: Bytes, offset: nat, current: Bytes, target: Bytes)
    requires current != [] && IsOccurrence(data, offset, current)
    ensures RenamedFrom(data, offset, current, target) ==
            target + RenamedFrom(data, offset + |current|, current, target)
  {
    var s := data[offset..];
    OccursHere(data, offset, current);
    assert s[|current|..] == data[offset + |current|..];
    assert data[offset + |current| - 1] == data[offset..offset + |current|][|current| - 1];
  }

  lemma CopyThrough(data: Bytes, offset: nat, index: nat, current: Bytes, target: Bytes)
    requires current != [] && offset <= index < |data| && !IsOccurrence(data, index, current)
    requires forall i :: offset <= i < index ==> !PathAt(data, i, current)
    ensures RenamedFrom(data, offset, current, target) ==
            data[offset..index + 1] + RenamedFrom(data, index + 1, current, target)
  {
    CopyUpTo(data, offset, index, current, target);
    CopyOne(data, index, current, target);
    assert data[offset..index + 1] == data[offset..index] + [data[index]];
  }

  lemma ReplaceAfterCopy(data: Bytes, offset: nat, index: nat, current: Bytes, target: Bytes)
    requires current != [] && offset <= index && IsOccurrence(data, index, current)
    requires forall i :: offset <= i < index ==> !PathAt(data, i, current)
    ensures RenamedFrom(data, offset, current, target) ==
            (data[offset..index] + target) + RenamedFrom(data, index + |current|, current, target)
  {
    CopyUpTo(data, offset, index, current, target);
    ReplaceOne(data, index, current, target);
  }

  /** One turn of the loop: what to write next and where to go on. */
  method ScanOnce(data: Bytes, offset: nat, current: Bytes, target: Bytes) returns (chunk: Bytes, next: nat)
    requires current != [] && offset < |data|
    ensures offset < next <= |data|
    ensures RenamedFrom(data, offset, current, target) == chunk + RenamedFrom(data, next, current, target)
  {
    var index := Find(data, offset, current);
    if index < 0 {
      CopyUpTo(data, offset, |data|, current, target);
      return data[offset..], |data|;
    }
    var end := index + |current|;
    var beforeOK := index == 0 || !ModuleCharacter(data[index - 1]);
    var afterOK := end == |data| || data[end] == SLASH || !ModuleCharacter(data[end]);
    if beforeOK && afterOK {
      ReplaceAfterCopy(data, offset, index, current, target);
      return data[offset..index] + target, end;
    }
    CopyThrough(data, offset, index, current, target);
    return data[offset..index + 1], index + 1;
  }

  /** The loop always moves on, and what it writes is the scan of the whole document. */
  method ReplaceDocumentModule(data: Bytes, current: Bytes, target: Bytes) returns (output: Bytes)
    requires current != []
    ensures output == Renamed(data, false, current, target)
  {
    output := [];
    var offset := 0;
    assert data[0..] == data;
    while offset < |data|
      invariant 0 <= offset <= |data|
      invariant output + RenamedFrom(data, offset, current, target) == Renamed(data, false, current, target)
      decreases |data| - offset
    {
      var chunk, next := ScanOnce(data, offset, current, target);
      Collections.Assoc(output, chunk, RenamedFrom(data, next, current, target));
      output := output + chunk;
      offset := next;
    }
    assert data[|data|..] == [];
  }

  // ----- exactly the boundary-delimited occurrences

  /** Inside a path no other occurrence begins. */
  lemma {:induction false} NoneInside(data: Bytes, from: nat, end: nat, path: Bytes)
    requires 0 < from <= end <= |data| && path != []
    requires forall k :: from - 1 <= k < end - 1 ==> ModuleCharacter(data[k])
    ensures Positions(data, path, from) == Positions(data, path, end)
    decreases end - from
  {
    if from < end {
      assert ModuleCharacter(data[from - 1]);
      assert !IsOccurrence(data, from, path);
      NoneInside(data, from + 1, end, path);
    }
  }

  lemma PositionsAfter(data: Bytes, from: nat, path: Bytes)
    requires path != [] && AllModule(path) && IsOccurrence(data, from, path)
    ensures Positions(data, path, from) == [from] + Positions(data, path, from + |path|)
  {
    var end := from + |path|;
    forall k | from <= k < end - 1 ensures ModuleCharacter(data[k]) {
      assert data[from..end][k - from] == data[k];
    }
    NoneInside(data, from + 1, end, path);
  }

  function AllEdits(data: Bytes, from: nat, current: Bytes, target: Bytes): seq<Edit<Byte>> {
    EditsAt(Positions(data, current, from), current, target)
  }

  lemma RewritesHere(data: Bytes, from: nat, current: Bytes, target: Bytes)
    requires current != [] && AllModule(current) && IsOccurrence(data, from, current)
    requires var end := from + |current|;
             InOrder(AllEdits(data, end, current, target), end, |data|) &&
             RenamedFrom(data, end, current, target) == Spliced(data, end, AllEdits(data, end, current, target))
    ensures InOrder(AllEdits(data, from, current, target), from, |data|)
    ensures RenamedFrom(data, from, current, target) == Spliced(data, from, AllEdits(data, from, current, target))
  {
    var end := from + |current|;
    ReplaceOne(data, from, current, target);
    PositionsAfter(data, from, current);
    var e, rest := Edit(from, end, target), AllEdits(data, end, current, target);
    assert AllEdits(data, from, current, target) == [e] + rest;
    SplicedCons(data, e, rest);
  }

  lemma KeepsHere(data: Bytes, from: nat, current: Bytes, target: Bytes)
    requires current != [] && from < |data| && !IsOccurrence(data, from, current)
    requires InOrder(AllEdits(data, from + 1, current, target), from + 1, |data|)
    requires RenamedFrom(data, from + 1, current, target) ==
             Spliced(data, from + 1, AllEdits(data, from + 1, current, target))
    ensures InOrder(AllEdits(data, from, current, target), from, |data|)
    ensures RenamedFrom(data, from, current, target) == Spliced(data, from, AllEdits(data, from, current, target))
  {
    CopyOne(data, from, current, target);
    NoEditHere(data, from, current, target);
    KeepByte(data, from, AllEdits(data, from + 1, current, target));
  }

  lemma NoEditHere(data: Bytes, from: nat, current: Bytes, target: Bytes)
    requires from < |data| && !IsOccurrence(data, from, current)
    ensures AllEdits(data, from, current, target) == AllEdits(data, from + 1, current, target)
  {
  }

  lemma KeepByte(data: Bytes, from: nat, edits: seq<Edit<Byte>>)
    requires from < |data| && InOrder(edits, from + 1, |data|)
    ensures InOrder(edits, from, |data|) && Spliced(data, from, edits) == [data[from]] + Spliced(data, from + 1, edits)
  {
    SplicedLater(data, from, from + 1, edits);
    assert data[from..from + 1] == [data[from]];
  }

  /**
   For a path of module characters the scan replaces precisely its boundary-delimited occurrences and nothing else.
   */
  lemma {:induction false} RewritesExactlyOccurrences(data: Bytes, from: nat, current: Bytes, target: Bytes)
    requires current != [] && AllModule(current) && from <= |data|
    ensures InOrder(AllEdits(data, from, current, target), from, |data|)
    ensures RenamedFrom(data, from, current, target) == Spliced(data, from, AllEdits(data, from, current, target))
    decreases |data| - from
  {
    if from == |data| {
      assert data[from..] == [];
    } else if IsOccurrence(data, from, current) {
      RewritesExactlyOccurrences(data, from + |current|, current, target);
      RewritesHere(data, from, current, target);
    } else {
      RewritesExactlyOccurrences(data, from + 1, current, target);
      KeepsHere(data, from, current, target);
    }
  }

  // ----- renaming back

  predicate Clean(s: Bytes, inPath: bool, path: Bytes)
    decreases |s|
  {
    !Occurs(s, inPath, path) && (s != [] ==> Clean(s[1..], ModuleCharacter(s[0]), path))
  }

  /** Between path bytes the scan copies: a run of module characters is not touched. */
  lemma {:induction false} RunCopied(s: Bytes, w: Bytes, current: Bytes, target: Bytes)
    requires current != [] && AllModule(w) && w <= Renamed(s, true, current, target)
    ensures w <= s && Renamed(s, true, current, target)[|w|..] == Renamed(s[|w|..], true, current, target)
    decreases |w|
  {
    if w == [] {
      assert s[0..] == s;
    } else {
      assert s != [];
      var rest := Renamed(s[1..], ModuleCharacter(s[0]), current, target);
      assert Renamed(s, true, current, target) == [s[0]] + rest;
      assert w[0] == s[0];
      assert w[1..] <= rest;
      RunCopied(s[1..], w[1..], current, target);
      assert s[1..][|w| - 1..] == s[|w|..];
    }
  }

  lemma {:induction false} BoundaryKept(s: Bytes, current: Bytes, target: Bytes)
    requires current != []
    ensures Boundary(Renamed(s, true, current, target)) <==> Boundary(s)
  {
  }

  /** Where nothing was replaced, a target occurrence at the head of the output was there before. */
  lemma {:induction false} NoneCreated(s: Bytes, current: Bytes, target: Bytes)
    requires current != [] && target != [] && AllModule(target) && s != [] && !Occurs(s, false, current)
    ensures Occurs(Renamed(s, false, current, target), false, target) ==> Occurs(s, false, target)
  {
    var output := Renamed(s, false, current, target);
    var rest := Renamed(s[1..], ModuleCharacter(s[0]), current, target);
    assert output == [s[0]] + rest;
    if Occurs(output, false, target) {
      assert target[0] == s[0] && target[1..] <= rest;
      RunCopied(s[1..], target[1..], current, target);
      assert rest[|target| - 1..] == output[|target|..];
      assert s[1..][|target| - 1..] == s[|target|..];
      BoundaryKept(s[|target|..], current, target);
      assert target == [s[0]] + target[1..];
    }
  }

  lemma {:induction false} RenameBack(s: Bytes, inPath: bool, current: Bytes, target: Bytes)
    requires current != [] && AllModule(current) && target != [] && AllModule(target)
    requires Clean(s, inPath, target)
    ensures Renamed(Renamed(s, inPath, current, target), inPath, target, current) == s
    decreases |s|
  {
    var output := Renamed(s, inPath, current, target);
    if s != [] {
      if Occurs(s, inPath, current) {
        var rest := s[|current|..];
        CleanAfterPath(s, inPath, current, target);
        RenameBack(rest, true, current, target);
        BoundaryKept(rest, current, target);
        assert output == target + Renamed(rest, true, current, target);
        assert output[|target|..] == Renamed(rest, true, current, target);
        assert s == current + rest;
      } else {
        if !inPath { NoneCreated(s, current, target); }
        RenameBack(s[1..], ModuleCharacter(s[0]), current, target);
        assert output[1..] == Renamed(s[1..], ModuleCharacter(s[0]), current, target);
      }
    }
  }

  lemma {:induction false} CleanAfterPath(s: Bytes, inPath: bool, path: Bytes, target: Bytes)
    requires path != [] && AllModule(path) && path <= s && Clean(s, inPath, target)
    ensures Clean(s[|path|..], true, target)
  {
    if |path| == 1 {
      assert path[0] == s[0];
    } else {
      assert path[1..] <= s[1..];
      CleanAfterPath(s[1..], ModuleCharacter(s[0]), path[1..], target);
      assert s[1..][|path| - 1..] == s[|path|..];
    }
  }

  lemma {:induction false} CleanFrom(data: Bytes, offset: nat, path: Bytes)
    requires offset <= |data| && path != []
    requires forall i :: 0 <= i < |data| ==> !IsOccurrence(data, i, path)
    ensures Clean(data[offset..], InPath(data, offset), path)
    decreases |data| - offset
  {
    OccursHere(data, offset, path);
    if offset < |data| {
      CleanFrom(data, offset + 1, path);
      assert data[offset..][1..] == data[offset + 1..];
    }
  }

  /** Renaming current to target and then target to current restores every document that did not mention target. */
  lemma {:induction false} RenameRoundTrip(data: Bytes, current: Bytes, target: Bytes)
    requires current != [] && AllModule(current) && target != [] && AllModule(target)
    requires forall i :: 0 <= i < |data| ==> !IsOccurrence(data, i, target)
    ensures Renamed(Renamed(data, false, current, target), false, target, current) == data
  {
    CleanFrom(data, 0, target);
    assert data[0..] == data;
    RenameBack(data, false, current, target);
  }

  // ----- Go imports

  /** An import path literal with the byte span the parser reports for it. */
  datatype ImportSpec = ImportSpec(path: Bytes, start: nat, end: nat)

  /** `path == current` or `path` lies below `current`. */
  predicate Belongs(path: Bytes, current: Bytes) {
    path == current || current + [SLASH] <= path
  }

  function RenamedImport(path: Bytes, current: Bytes, target: Bytes): Bytes {
    if Belongs(path, current) then target + path[|current|..] else path
  }

  ghost predicate Spans(imports: seq<ImportSpec>, from: nat, length: nat) {
    if imports == [] then from <= length
    else from <= imports[0].start <= imports[0].end <= length && Spans(imports[1..], imports[0].end, length)
  }

  function ImportEdits(imports: seq<ImportSpec>, current: Bytes, target: Bytes, quote: Bytes -> Bytes)
      : seq<Edit<Byte>>
  {
    if imports == [] then []
    else
      (if Belongs(imports[0].path, current)
       then [Edit(imports[0].start, imports[0].end, quote(RenamedImport(imports[0].path, current, target)))] else []) +
      ImportEdits(imports[1..], current, target, quote)
  }

  lemma {:induction false} ImportEditsInOrder(imports: seq<ImportSpec>, current: Bytes, target: Bytes,
                                              quote: Bytes -> Bytes,
                                              from: nat, length: nat)
    requires Spans(imports, from, length)
    ensures InOrder(ImportEdits(imports, current, target, quote), from, length)
  {
    if imports != [] {
      ImportEditsInOrder(imports[1..], current, target, quote, imports[0].end, length);
      var rest := ImportEdits(imports[1..], current, target, quote);
      if Belongs(imports[0].path, current) {
        assert ImportEdits(imports, current, target, quote)[1..] == rest;
      } else {
        assert ImportEdits(imports, current, target, quote) == rest;
        InOrderEarlier(rest, from, imports[0].end, length);
      }
    }
  }

  method CollectEdits(imports: seq<ImportSpec>, current: Bytes, target: Bytes, quote: Bytes -> Bytes)
      returns (edits: seq<Edit<Byte>>)
    ensures edits == ImportEdits(imports, current, target, quote)
  {
    edits := [];
    assert imports[0..] == imports;
    for index := 0 to |imports|
      invariant edits + ImportEdits(imports[index..], current, target, quote) ==
                ImportEdits(imports, current, target, quote)
    {
      var spec := imports[index];
      assert imports[index..][1..] == imports[index + 1..];
      if spec.path != current && !(current + [SLASH] <= spec.path) {
        continue;
      }
      edits := edits + [Edit(spec.start, spec.end, quote(target + spec.path[|current|..]))];
    }
    assert imports[|imports|..] == [];
  }

  /**
   The edits collected in source order and applied from the back rewrite each import of the module, once, in place.
   */
  method ReplaceGoImports(data: Bytes, imports: seq<ImportSpec>, current: Bytes, target: Bytes, quote: Bytes -> Bytes)
      returns (updated: Bytes)
    requires Spans(imports, 0, |data|)
    ensures InOrder(ImportEdits(imports, current, target, quote), 0, |data|)
    ensures updated == Spliced(data, 0, ImportEdits(imports, current, target, quote))
  {
    ImportEditsInOrder(imports, current, target, quote, 0, |data|);
    var edits := CollectEdits(imports, current, target, quote);
    updated := SpliceBackwards(data, edits);
  }

  /** A path that goes on with a slash, or ends, behind the module path is renamed; every other path is kept. */
  lemma RenamedWhen(current: Bytes, rest: Bytes, target: Bytes, other: Bytes)
    ensures RenamedImport(current + rest, current, target) ==
            if rest == [] || rest[0] == SLASH then target + rest else current + rest
    ensures !(current <= other) ==> RenamedImport(other, current, target) == other
  {
    var path := current + rest;
    assert path[|current|..] == rest;
    if rest != [] {
      assert path[..|current| + 1] == current + [rest[0]];
    } else {
      assert path == current;
    }
  }

  /** The file with the literal of every renamed import replaced and every other byte kept. */
  function WithImports(data: Bytes, from: nat, imports: seq<ImportSpec>, current: Bytes, target: Bytes,
                       quote: Bytes -> Bytes): Bytes
    requires Spans(imports, from, |data|)
    decreases |imports|
  {
    if imports == [] then data[from..]
    else
      var spec := imports[0];
      data[from..spec.start] +
      (if spec.path == current || current + [SLASH] <= spec.path then quote(target + spec.path[|current|..])
       else data[spec.start..spec.end]) +
      WithImports(data, spec.end, imports[1..], current, target, quote)
  }

  lemma {:induction false} ImportsRewritten(data: Bytes, from: nat, imports: seq<ImportSpec>, current: Bytes,
                                            target: Bytes, quote: Bytes -> Bytes)
    requires Spans(imports, from, |data|)
    ensures InOrder(ImportEdits(imports, current, target, quote), from, |data|)
    ensures Spliced(data, from, ImportEdits(imports, current, target, quote)) ==
            WithImports(data, from, imports, current, target, quote)
    decreases |imports|
  {
    ImportEditsInOrder(imports, current, target, quote, from, |data|);
    if imports != [] {
      ImportsRewritten(data, imports[0].end, imports[1..], current, target, quote);
      FirstImport(data, from, imports, current, target, quote);
    }
  }

  lemma {:induction false} FirstImport(data: Bytes, from: nat, imports: seq<ImportSpec>, current: Bytes, target: Bytes,
                                       quote: Bytes -> Bytes)
    requires imports != [] && Spans(imports, from, |data|)
    requires var rest := ImportEdits(imports[1..], current, target, quote);
      && InOrder(rest, imports[0].end, |data|) && InOrder(ImportEdits(imports, current, target, quote), from, |data|)
      && Spliced(data, imports[0].end, rest) == WithImports(data, imports[0].end, imports[1..], current, target, quote)
    ensures Spliced(data, from, ImportEdits(imports, current, target, quote)) ==
            WithImports(data, from, imports, current, target, quote)
  {
    var spec, rest := imports[0], ImportEdits(imports[1..], current, target, quote);
    if Belongs(spec.path, current) {
      assert ImportEdits(imports, current, target, quote)[1..] == rest;
    } else {
      assert ImportEdits(imports, current, target, quote) == rest;
      SplicedEarlier(data, from, spec.end, rest);
      Kept(data, from, spec.start, spec.end);
    }
  }

  lemma Kept(data: Bytes, a: nat, b: nat, c: nat)
    requires a <= b <= c <= |data|
    ensures data[a..c] == data[a..b] + data[b..c] && data[a..] == data[a..c] + data[c..]
  {
  }

  lemma {:induction false} SplicedEarlier(data: Bytes, from: nat, to: nat, edits: seq<Edit<Byte>>)
    requires from <= to <= |data| && InOrder(edits, to, |data|)
    ensures InOrder(edits, from, |data|) && Spliced(data, from, edits) == data[from..to] + Spliced(data, to, edits)
  {
    if edits == [] {
      Kept(data, from, to, to);
    } else {
      var first, rest := edits[0], Spliced(data, edits[0].end, edits[1..]);
      Kept(data, from, to, first.start);
      Collections.Assoc(data[from..to], data[to..first.start], first.text);
      Collections.Assoc(data[from..to], data[to..first.start] + first.text, rest);
    }
  }

  /** An import path survives renaming there and back unless it already belonged to the target. */
  lemma ImportRoundTrip(path: Bytes, current: Bytes, target: Bytes)
    requires !Belongs(path, target)
    ensures RenamedImport(RenamedImport(path, current, target), target, current) == path
  {
    if Belongs(path, current) {
      var rest := path[|current|..];
      var renamed := target + rest;
      assert path == current + rest;
      assert rest == [] || rest[0] == SLASH by {
        if path != current { assert path[|current|] == (current + [SLASH])[|current|]; }
      }
      if rest == [] {
        assert renamed == target;
      } else {
        assert renamed[..|target| + 1] == target + [SLASH];
      }
      assert renamed[|target|..] == rest;
    }
  }
}
