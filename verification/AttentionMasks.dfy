/** The attention masks and position ids of the action expert, and the loops that fill them. */
module AttentionMasks {
  import opened Arith

  /** The bits of 0.0f and of -INFINITY. */
  const OPEN: nat := 0
  const SHUT: nat := 0xFF80_0000

  function ValidCount(valid: seq<bool>): nat {
    if valid == [] then 0 else ValidCount(valid[..|valid| - 1]) + if valid[|valid| - 1] then 1 else 0
  }

  /** `GGML_PAD`: up to the next multiple. */
  function PadTo(n: nat, multiple: nat): (r: nat)
    requires multiple > 0
    ensures n <= r < n + multiple && r % multiple == 0
  {
    var q := (n + multiple - 1) / multiple;
    Arith.DigitsOf(q, 0, multiple);
    q * multiple
  }

  /** Action `query` sees the valid prefix, and the actions up to itself. */
  predicate SelfSees(valid: seq<bool>, query: nat, key: nat) {
    if key < |valid| then valid[key] else key - |valid| <= query
  }

  /** In cross attention every action sees the valid prefix. */
  predicate CrossSees(valid: seq<bool>, key: nat) {
    key < |valid| && valid[key]
  }

  /** Cell `j` of a mask of rows of this width. */
  function SelfCell(valid: seq<bool>, chunk: nat, j: nat): nat
    requires |valid| + chunk > 0
  {
    var query, key := j / (|valid| + chunk), j % (|valid| + chunk);
    if query < chunk && SelfSees(valid, query, key) then OPEN else SHUT
  }

  function CrossCell(valid: seq<bool>, chunk: nat, j: nat): nat
    requires |valid| > 0
  {
    if j / |valid| < chunk && CrossSees(valid, j % |valid|) then OPEN else SHUT
  }

  /** The whole mask, row by row; the rows that only pad are shut. */
  function SelfMask(valid: seq<bool>, chunk: nat, rows: nat): seq<nat>
    requires |valid| + chunk > 0
  {
    seq(rows * (|valid| + chunk), (j: nat) => SelfCell(valid, chunk, j))
  }

  function CrossMask(valid: seq<bool>, chunk: nat, rows: nat): seq<nat>
    requires |valid| > 0
  {
    seq(rows * |valid|, (j: nat) => CrossCell(valid, chunk, j))
  }

  function SelfPositions(valid: seq<bool>, chunk: nat): seq<nat> {
    seq(chunk, (i: nat) => ValidCount(valid) + i)
  }

  function CrossPositions(chunk: nat): seq<nat> {
    seq(chunk, (i: nat) => i)
  }

  method CountValid(valid: seq<bool>) returns (count: nat)
    ensures count == ValidCount(valid)
  {
    count := 0;
    for i := 0 to |valid|
      invariant count == ValidCount(valid[..i])
    {
      assert valid[..i + 1][..i] == valid[..i];
      count := count + if valid[i] then 1 else 0;
    }
    assert valid[..|valid|] == valid;
  }

  method PrefixRow(valid: seq<bool>) returns (row: array<nat>)
    ensures fresh(row) && row.Length == |valid|
    ensures forall c :: 0 <= c < |valid| ==> row[c] == if valid[c] then OPEN else SHUT
  {
    row := new nat[|valid|];
    for c := 0 to |valid|
      invariant forall k :: 0 <= k < c ==> row[k] == if valid[k] then OPEN else SHUT
    {
      row[c] := if valid[c] then OPEN else SHUT;
    }
  }

  /** One row of the self mask, written over a row that is shut throughout. */
  method FillSelfRow(valid: seq<bool>, prefix: array<nat>, query: nat, start: nat, width: nat, mask: array<nat>)
    requires prefix != mask && prefix.Length == |valid| && query < width - |valid| && start + width <= mask.Length
    requires forall c :: 0 <= c < |valid| ==> prefix[c] == if valid[c] then OPEN else SHUT
    requires forall j :: start <= j < start + width ==> mask[j] == SHUT
    modifies mask
    ensures forall j :: start <= j < start + width ==>
      mask[j] == if SelfSees(valid, query, j - start) then OPEN else SHUT
    ensures forall j :: 0 <= j < mask.Length && !(start <= j < start + width) ==> mask[j] == old(mask[j])
  {
    for c := 0 to |valid|
      invariant forall j :: start <= j < start + c ==> mask[j] == if valid[j - start] then OPEN else SHUT
      invariant forall j :: 0 <= j < mask.Length && !(start <= j < start + c) ==> mask[j] == old(mask[j])
    {
      mask[start + c] := prefix[c];
    }
    for c := |valid| to |valid| + query + 1
      invariant forall j :: start <= j < start + |valid| ==> mask[j] == if valid[j - start] then OPEN else SHUT
      invariant forall j :: start + |valid| <= j < start + c ==> mask[j] == OPEN
      invariant forall j :: 0 <= j < mask.Length && !(start <= j < start + c) ==> mask[j] == old(mask[j])
    {
      mask[start + c] := OPEN;
    }
  }

  lemma SelfCellAt(valid: seq<bool>, chunk: nat, query: nat, c: nat)
    requires c < |valid| + chunk
    ensures SelfCell(valid, chunk, query * (|valid| + chunk) + c)
         == if query < chunk && (if c < |valid| then valid[c] else c - |valid| <= query) then OPEN else SHUT
  {
    Arith.DigitsOf(query, c, |valid| + chunk);
  }

  lemma CrossCellAt(valid: seq<bool>, chunk: nat, query: nat, c: nat)
    requires c < |valid|
    ensures CrossCell(valid, chunk, query * |valid| + c) == if query < chunk && valid[c] then OPEN else SHUT
  {
    Arith.DigitsOf(query, c, |valid|);
  }

  /** The padding rows are shut. */
  lemma PadRowsShut(valid: seq<bool>, chunk: nat, j: nat)
    requires |valid| > 0
    ensures j >= chunk * (|valid| + chunk) ==> SelfCell(valid, chunk, j) == SHUT
    ensures j >= chunk * |valid| ==> CrossCell(valid, chunk, j) == SHUT
  {
    Arith.AboveQuotient(chunk, j, |valid| + chunk);
    Arith.AboveQuotient(chunk, j, |valid|);
  }

  /** Row `query` of the self mask, in terms of the cells of the whole. */
  method WriteSelfRow(valid: seq<bool>, chunk: nat, prefix: array<nat>, query: nat, start: nat, mask: array<nat>)
    requires prefix != mask && prefix.Length == |valid| && query < chunk
    requires start == RowStart(|valid| + chunk, query) && start + |valid| + chunk <= mask.Length
    requires forall c :: 0 <= c < |valid| ==> prefix[c] == if valid[c] then OPEN else SHUT
    requires forall j :: start <= j < mask.Length ==> mask[j] == SHUT
    modifies mask
    ensures forall j :: start <= j < start + |valid| + chunk ==> mask[j] == SelfCell(valid, chunk, j)
    ensures forall j :: 0 <= j < mask.Length && !(start <= j < start + |valid| + chunk) ==> mask[j] == old(mask[j])
  {
    hide SelfCell;
    FillSelfRow(valid, prefix, query, start, |valid| + chunk, mask);
    forall j | start <= j < start + |valid| + chunk ensures mask[j] == SelfCell(valid, chunk, j) {
      SelfCellAt(valid, chunk, query, j - start);
    }
  }

  method WriteSelfRows(valid: seq<bool>, chunk: nat, width: nat, rows: nat, size: nat) returns (mask: seq<nat>)
    requires |valid| > 0 && chunk <= rows && width == |valid| + chunk && size == RowStart(width, rows)
    ensures |mask| == size
    ensures forall j :: 0 <= j < size ==>
      mask[j] == if j < RowStart(width, chunk) then SelfCell(valid, chunk, j) else SHUT
  {
    hide SelfCell, RowStart;
    var out := new nat[size](i => SHUT);
    var prefix := PrefixRow(valid);
    var start := 0;
    FirstRow(width, rows);
    for query := 0 to chunk
      invariant start == RowStart(width, query) <= size
      invariant forall j :: 0 <= j < start ==> out[j] == SelfCell(valid, chunk, j)
      invariant forall j :: start <= j < size ==> out[j] == SHUT
      modifies out
    {
      NextRow(width, query, rows);
      WriteSelfRow(valid, chunk, prefix, query, start, out);
      start := start + width;
    }
    mask := out[..];
  }

  method FillSelfMask(valid: seq<bool>, chunk: nat, rows: nat) returns (mask: seq<nat>)
    requires |valid| > 0 && chunk <= rows
    ensures mask == SelfMask(valid, chunk, rows)
  {
    var width := |valid| + chunk;
    var size := RowStart(width, rows);
    mask := WriteSelfRows(valid, chunk, width, rows, size);
    forall j | 0 <= j < size ensures mask[j] == SelfCell(valid, chunk, j) { PadRowsShut(valid, chunk, j); }
  }

  /** The indices, up to the length, that hold true. */
  ghost function Trues(valid: seq<bool>): (s: set<nat>)
    ensures forall i: nat :: i in s <==> i < |valid| && valid[i]
  {
    set i: nat | i < |valid| && valid[i]
  }

  /** The count is the number of indices that hold true. */
  lemma {:induction false} CountIsCardinality(valid: seq<bool>)
    ensures ValidCount(valid) == |Trues(valid)|
  {
    if valid != [] {
      var n := |valid| - 1;
      CountIsCardinality(valid[..n]);
      assert Trues(valid) == if valid[n] then Trues(valid[..n]) + {n} else Trues(valid[..n]);
    } else {
      assert Trues(valid) == {};
    }
  }

  lemma CellInside(width: nat, rows: nat, q: nat, c: nat)
    requires q < rows && c < width
    ensures q * width + c < rows * width
  {
    Arith.DigitsInRange(q, c, width, rows);
  }

  /** The whole self mask, cell by cell: the valid prefix, every action up to the query and the query itself. */
  lemma SelfMaskCells(valid: seq<bool>, chunk: nat, rows: nat, q: nat, c: nat)
    requires q < rows && c < |valid| + chunk
    ensures q * (|valid| + chunk) + c < rows * (|valid| + chunk) == |SelfMask(valid, chunk, rows)|
    ensures SelfMask(valid, chunk, rows)[q * (|valid| + chunk) + c]
         == if q < chunk && (if c < |valid| then valid[c] else c - |valid| <= q) then 0 else 0xFF80_0000
  {
    CellInside(|valid| + chunk, rows, q, c);
    SelfCellAt(valid, chunk, q, c);
  }

  lemma CrossMaskCells(valid: seq<bool>, chunk: nat, rows: nat, q: nat, c: nat)
    requires q < rows && c < |valid|
    ensures q * |valid| + c < rows * |valid| == |CrossMask(valid, chunk, rows)|
    ensures CrossMask(valid, chunk, rows)[q * |valid| + c] == if q < chunk && valid[c] then 0 else 0xFF80_0000
  {
    CellInside(|valid|, rows, q, c);
    CrossCellAt(valid, chunk, q, c);
  }

  method BuildSelfMask(valid: seq<bool>, chunk: nat, pad: nat) returns (mask: seq<nat>, positions: seq<nat>)
    requires |valid| > 0 && pad > 0
    ensures mask == SelfMask(valid, chunk, PadTo(chunk, pad))
    ensures positions == SelfPositions(valid, chunk)
    ensures forall i :: 0 <= i < chunk ==> positions[i] == |Trues(valid)| + i
  {
    CountIsCardinality(valid);
    var count := CountValid(valid);
    positions := [];
    for i := 0 to chunk
      invariant |positions| == i && forall k :: 0 <= k < i ==> positions[k] == count + k
    {
      positions := positions + [count + i];
    }
    assert positions == SelfPositions(valid, chunk);
    mask := FillSelfMask(valid, chunk, PadTo(chunk, pad));
  }

  /** Row `query` of the cross mask, in terms of the cells of the whole. */
  method WriteCrossRow(valid: seq<bool>, chunk: nat, prefix: array<nat>, query: nat, start: nat, mask: array<nat>)
    requires prefix != mask && prefix.Length == |valid| && query < chunk
    requires start == RowStart(|valid|, query) && start + |valid| <= mask.Length
    requires forall c :: 0 <= c < |valid| ==> prefix[c] == if valid[c] then OPEN else SHUT
    modifies mask
    ensures forall j :: start <= j < start + |valid| ==> mask[j] == CrossCell(valid, chunk, j)
    ensures forall j :: 0 <= j < mask.Length && !(start <= j < start + |valid|) ==> mask[j] == old(mask[j])
  {
    hide CrossCell;
    for c := 0 to |valid|
      invariant forall j :: start <= j < start + c ==> mask[j] == CrossCell(valid, chunk, j)
      invariant forall j :: 0 <= j < mask.Length && !(start <= j < start + c) ==> mask[j] == old(mask[j])
    {
      CrossCellAt(valid, chunk, query, c);
      mask[start + c] := prefix[c];
    }
  }

  method WriteCrossRows(valid: seq<bool>, chunk: nat, rows: nat, size: nat) returns (mask: seq<nat>)
    requires |valid| > 0 && chunk <= rows && size == RowStart(|valid|, rows)
    ensures |mask| == size
    ensures forall j :: 0 <= j < size ==>
      mask[j] == if j < RowStart(|valid|, chunk) then CrossCell(valid, chunk, j) else SHUT
  {
    hide CrossCell, RowStart;
    var width := |valid|;
    var out := new nat[size](i => SHUT);
    var prefix := PrefixRow(valid);
    var start := 0;
    FirstRow(width, rows);
    for query := 0 to chunk
      invariant start == RowStart(width, query) <= size
      invariant forall j :: 0 <= j < start ==> out[j] == CrossCell(valid, chunk, j)
      invariant forall j :: start <= j < size ==> out[j] == SHUT
      modifies out
    {
      NextRow(width, query, rows);
      WriteCrossRow(valid, chunk, prefix, query, start, out);
      start := start + width;
    }
    mask := out[..];
  }

  method FillCrossMask(valid: seq<bool>, chunk: nat, rows: nat) returns (mask: seq<nat>)
    requires |valid| > 0 && chunk <= rows
    ensures mask == CrossMask(valid, chunk, rows)
  {
    var size := RowStart(|valid|, rows);
    mask := WriteCrossRows(valid, chunk, rows, size);
    forall j | 0 <= j < size ensures mask[j] == CrossCell(valid, chunk, j) { PadRowsShut(valid, chunk, j); }
  }

  method BuildCrossMask(valid: seq<bool>, chunk: nat, pad: nat) returns (mask: seq<nat>, positions: seq<nat>)
    requires |valid| > 0 && pad > 0
    ensures mask == CrossMask(valid, chunk, PadTo(chunk, pad))
    ensures positions == CrossPositions(chunk)
    ensures forall i :: 0 <= i < chunk ==> positions[i] == i
  {
    positions := [];
    for i := 0 to chunk
      invariant |positions| == i && forall k :: 0 <= k < i ==> positions[k] == k
    {
      positions := positions + [i];
    }
    assert positions == CrossPositions(chunk);
    mask := FillCrossMask(valid, chunk, PadTo(chunk, pad));
  }
}
