/**
 From an Open Inference Protocol v2 request to the `[N, F]` array a model predicts on,
 `serving/ray_serving/oip.py`: one tensor of rows, or one tensor per feature column, put in the
 signature's order and stacked side by side.
 */
module TensorAssembly {
  import opened Wrappers

  datatype Error =
    | NoInputs | NoName | BadShape | NotNumeric | NotData | WrongSize
    | BadRank | AppearsTwice | SignatureMismatch | RowsDisagree | NoRows | WrongWidth

  /** One element of `inputs` as sent: numbers already read, `None` when they cannot be. */
  datatype Item = Item(name: string, shape: Option<seq<int>>, numeric: bool, data: Option<seq<real>>)

  datatype Tensor = Tensor(name: string, shape: seq<int>, flat: seq<real>)

  /** Column names in order, and the total width when every column's is known. */
  datatype Signature = Signature(names: seq<string>, width: Option<nat>)

  /** `rows` lists of `cols` cells. */
  datatype Matrix = Matrix(rows: nat, cols: nat, cells: seq<seq<real>>) {
    ghost predicate Valid() {
      |cells| == rows && forall i | 0 <= i < rows :: |cells[i]| == cols
    }
  }

  function Product(shape: seq<int>): int {
    if shape == [] then 1 else shape[0] * Product(shape[1..])
  }

  function ReadTensor(item: Item): (r: Result<Tensor, Error>)
    ensures r.Ok? ==> (forall d <- r.value.shape :: d >= 0) && |r.value.flat| == Product(r.value.shape)
  {
    if item.name == "" then Err(NoName)
    else if item.shape.None? || exists d <- item.shape.value :: d < 0 then Err(BadShape)
    else if !item.numeric then Err(NotNumeric)
    else if item.data.None? then Err(NotData)
    else if |item.data.value| != Product(item.shape.value) then Err(WrongSize)
    else Ok(Tensor(item.name, item.shape.value, item.data.value))
  }

  ghost predicate Valid(t: Tensor) {
    (forall d <- t.shape :: d >= 0) && |t.flat| == Product(t.shape)
  }

  function ReadAll(items: seq<Item>): (r: Result<seq<Tensor>, Error>)
    ensures r.Ok? <==> forall item <- items :: ReadTensor(item).Ok?
    ensures r.Ok? ==> |r.value| == |items|
    ensures r.Ok? ==> forall i | 0 <= i < |items| :: ReadTensor(items[i]) == Ok(r.value[i]) && Valid(r.value[i])
  {
    if items == [] then Ok([])
    else
      var first := ReadTensor(items[0]);
      if first.Err? then Err(first.error)
      else
        var rest := ReadAll(items[1..]);
        assert items == [items[0]] + items[1..];
        if rest.Err? then rest else Ok([first.value] + rest.value)
  }

  // ---- reshaping -----------------------------------------------------------

  lemma RowsLeft(n: nat, k: nat)
    requires n > 0
    ensures n * k == k + (n - 1) * k && (n - 1) * k >= 0
  {
  }

  function Rows(flat: seq<real>, n: nat, k: nat): (r: seq<seq<real>>)
    requires |flat| == n * k
    ensures |r| == n && forall i | 0 <= i < n :: |r[i]| == k
  {
    if n == 0 then []
    else
      RowsLeft(n, k);
      [flat[..k]] + Rows(flat[k..], n - 1, k)
  }

  /** Row-major: cell `[i, c]` of the array is element `i * k + c` of the data. */
  lemma {:induction false} RowsAt(flat: seq<real>, n: nat, k: nat, i: nat, c: nat)
    requires |flat| == n * k && i < n && c < k
    ensures 0 <= i * k + c < |flat| && Rows(flat, n, k)[i][c] == flat[i * k + c]
  {
    RowsLeft(n, k);
    if i > 0 {
      RowsAt(flat[k..], n - 1, k, i - 1, c);
      RowsLeft(i, k);
    } else {
      assert i * k + c == c;
    }
  }

  predicate Columnar(t: Tensor) { |t.shape| == 1 || |t.shape| == 2 }

  /** A tensor as a block of columns: `[N]` is one column, `[N, k]` is `k` of them. */
  function Block(t: Tensor): (m: Matrix)
    requires Valid(t) && Columnar(t)
    ensures m.Valid()
  {
    BlockSize(t);
    var k := if |t.shape| == 1 then 1 else t.shape[1];
    Matrix(t.shape[0], k, Rows(t.flat, t.shape[0], k))
  }

  lemma BlockSize(t: Tensor)
    requires Valid(t) && Columnar(t)
    ensures t.shape[0] >= 0 && (|t.shape| == 2 ==> t.shape[1] >= 0)
    ensures |t.flat| == t.shape[0] * if |t.shape| == 1 then 1 else t.shape[1]
  {
    assert t.shape[0] in t.shape;
    if |t.shape| == 2 {
      assert t.shape[1] in t.shape;
      assert t.shape[1..][1..] == [];
      assert Product(t.shape[1..]) == t.shape[1];
    } else {
      assert t.shape[1..] == [] && Product([]) == 1;
      assert Product(t.shape) == t.shape[0] * 1;
    }
  }

  /** One tensor of rows: `[N, F]`, or `[F]` for a single row. */
  function RowBlock(t: Tensor): (m: Matrix)
    requires Valid(t) && Columnar(t)
    ensures m.Valid()
  {
    BlockSize(t);
    if |t.shape| == 1 then Matrix(1, t.shape[0], [t.flat]) else Block(t)
  }

  // ---- stacking ------------------------------------------------------------

  function TotalCols(blocks: seq<Matrix>): nat {
    if blocks == [] then 0 else blocks[0].cols + TotalCols(blocks[1..])
  }

  ghost predicate Aligned(blocks: seq<Matrix>, n: nat) {
    forall b <- blocks :: b.Valid() && b.rows == n
  }

  function Stack(blocks: seq<Matrix>, n: nat): (m: Matrix)
    requires Aligned(blocks, n)
    ensures m.Valid() && m.rows == n && m.cols == TotalCols(blocks)
  {
    if blocks == [] then Matrix(n, 0, seq(n, i => []))
    else
      var rest := Stack(blocks[1..], n);
      var first := blocks[0];
      Matrix(n, first.cols + rest.cols, seq(n, i requires 0 <= i < n => first.cells[i] + rest.cells[i]))
  }

  function Offset(blocks: seq<Matrix>, j: nat): nat
    requires j <= |blocks|
  {
    TotalCols(blocks[..j])
  }

  lemma {:induction false} OffsetInside(blocks: seq<Matrix>, j: nat)
    requires j < |blocks|
    ensures Offset(blocks, j) + blocks[j].cols <= TotalCols(blocks)
    ensures j > 0 ==> Offset(blocks, j) == blocks[0].cols + Offset(blocks[1..], j - 1)
  {
    if j > 0 {
      OffsetInside(blocks[1..], j - 1);
      assert blocks[..j][1..] == blocks[1..][..j - 1];
    }
  }

  /** Every cell is the right cell of the right block, at that block's prefix-sum offset. */
  lemma {:induction false} StackAt(blocks: seq<Matrix>, n: nat, i: nat, j: nat, c: nat)
    requires Aligned(blocks, n) && i < n && j < |blocks| && c < blocks[j].cols
    ensures blocks[j] in blocks && Offset(blocks, j) + c < TotalCols(blocks)
    ensures Stack(blocks, n).cells[i][Offset(blocks, j) + c] == blocks[j].cells[i][c]
  {
    OffsetInside(blocks, j);
    assert blocks[0] in blocks;
    if j > 0 {
      StackAt(blocks[1..], n, i, j - 1, c);
    }
  }

  // ---- the array -----------------------------------------------------------

  /** The loop over the tensors: refuse a name seen before, then a rank that is no column. */
  function Collect(ts: seq<Tensor>, byName: map<string, Matrix>): Result<map<string, Matrix>, Error>
    requires forall t <- ts :: Valid(t)
    decreases |ts|
  {
    if ts == [] then Ok(byName)
    else if ts[0].name in byName then Err(AppearsTwice)
    else if !Columnar(ts[0]) then Err(BadRank)
    else Collect(ts[1..], byName[ts[0].name := Block(ts[0])])
  }

  function Names(ts: seq<Tensor>): seq<string> {
    seq(|ts|, i requires 0 <= i < |ts| => ts[i].name)
  }

  function Pick(byName: map<string, Matrix>, order: seq<string>): (blocks: seq<Matrix>)
    requires forall n <- order :: n in byName
    ensures |blocks| == |order| && forall j | 0 <= j < |order| :: blocks[j] == byName[order[j]]
  {
    seq(|order|, j requires 0 <= j < |order| => byName[order[j]])
  }

  /** `np.hstack` of the columns in `order`, which must agree on the number of rows. */
  function StackNamed(byName: map<string, Matrix>, order: seq<string>): (r: Result<Matrix, Error>)
    requires forall n <- byName :: byName[n].Valid()
    requires forall n <- order :: n in byName
    ensures r.Ok? ==> r.value.Valid()
  {
    if order == [] || exists n <- order :: byName[n].rows != byName[order[0]].rows then Err(RowsDisagree)
    else Ok(Stack(Pick(byName, order), byName[order[0]].rows))
  }

  lemma {:induction false} CollectedIff(ts: seq<Tensor>, byName: map<string, Matrix>)
    requires forall t <- ts :: Valid(t)
    ensures Collect(ts, byName).Ok? <==>
              (forall t <- ts :: Columnar(t) && t.name !in byName) && Distinct(ts)
    decreases |ts|
  {
    if ts != [] {
      var t, rest := ts[0], ts[1..];
      assert ts == [t] + rest;
      DistinctTail(ts);
      if t.name !in byName && Columnar(t) {
        CollectedIff(rest, byName[t.name := Block(t)]);
      }
    }
  }

  lemma {:induction false} CollectedKeys(ts: seq<Tensor>, byName: map<string, Matrix>)
    requires (forall t <- ts :: Valid(t)) && Collect(ts, byName).Ok?
    ensures Collect(ts, byName).value.Keys == byName.Keys + (set t <- ts :: t.name)
    decreases |ts|
  {
    if ts != [] {
      CollectedKeys(ts[1..], byName[ts[0].name := Block(ts[0])]);
      assert ts == [ts[0]] + ts[1..];
    }
  }

  lemma {:induction false} CollectedBlocks(ts: seq<Tensor>, byName: map<string, Matrix>)
    requires (forall t <- ts :: Valid(t)) && Collect(ts, byName).Ok?
    ensures var all := Collect(ts, byName).value;
            && (forall t <- ts :: Columnar(t) && t.name in all && all[t.name] == Block(t))
            && forall n <- byName :: n in all && all[n] == byName[n]
    decreases |ts|
  {
    if ts != [] {
      var t, rest := ts[0], ts[1..];
      assert ts == [t] + rest;
      CollectedBlocks(rest, byName[t.name := Block(t)]);
    }
  }

  lemma Collected(ts: seq<Tensor>)
    requires forall t <- ts :: Valid(t)
    ensures Collect(ts, map[]).Ok? <==> (forall t <- ts :: Columnar(t)) && Distinct(ts)
    ensures Collect(ts, map[]).Ok? ==>
              var all := Collect(ts, map[]).value;
              && all.Keys == (set t <- ts :: t.name)
              && (forall t <- ts :: Columnar(t) && all[t.name] == Block(t))
              && (forall n <- all :: all[n].Valid())
              && forall n <- Names(ts) :: n in all
  {
    CollectedIff(ts, map[]);
    if Collect(ts, map[]).Ok? {
      CollectedKeys(ts, map[]);
      CollectedBlocks(ts, map[]);
    }
  }

  ghost predicate Distinct(ts: seq<Tensor>) {
    forall i, j | 0 <= i < j < |ts| :: ts[i].name != ts[j].name
  }

  lemma DistinctTail(ts: seq<Tensor>)
    requires ts != []
    ensures Distinct(ts) <==> Distinct(ts[1..]) && forall u <- ts[1..] :: u.name != ts[0].name
  {
    if Distinct(ts[1..]) && forall u <- ts[1..] :: u.name != ts[0].name {
      forall i, j | 0 <= i < j < |ts|
        ensures ts[i].name != ts[j].name
      {
        assert ts[j] == ts[1..][j - 1];
        if i > 0 {
          assert ts[i] == ts[1..][i - 1];
        }
      }
    }
  }

  /** `_columns`: with a signature the tensors must be exactly its columns and take its order; without
      one they keep the request's. */
  function Columns(ts: seq<Tensor>, signature: Option<Signature>): (r: Result<Matrix, Error>)
    requires forall t <- ts :: Valid(t)
    ensures r.Ok? ==> r.value.Valid()
  {
    var byName := Collect(ts, map[]);
    if byName.Err? then Err(byName.error)
    else
      Collected(ts);
      if signature.Some? && (set n <- signature.value.names) != byName.value.Keys then Err(SignatureMismatch)
      else StackNamed(byName.value, if signature.Some? then signature.value.names else Names(ts))
  }

  /** One tensor that is not one of the signature's columns is a block of rows. */
  predicate RowForm(ts: seq<Tensor>, signature: Option<Signature>) {
    |ts| == 1 && (signature.None? || ts[0].name !in signature.value.names)
  }

  function Shaped(ts: seq<Tensor>, signature: Option<Signature>): (r: Result<Matrix, Error>)
    requires forall t <- ts :: Valid(t)
    ensures r.Ok? ==> r.value.Valid()
  {
    if RowForm(ts, signature) then
      if Columnar(ts[0]) then Ok(RowBlock(ts[0])) else Err(BadRank)
    else Columns(ts, signature)
  }

  /** `to_array`. */
  function ToArray(items: seq<Item>, signature: Option<Signature>): (r: Result<Matrix, Error>)
    ensures r.Ok? ==> r.value.Valid() && r.value.rows >= 1
    ensures r.Ok? && signature.Some? && signature.value.width.Some? ==> r.value.cols == signature.value.width.value
  {
    if items == [] then Err(NoInputs)
    else
      var ts := ReadAll(items);
      if ts.Err? then Err(ts.error)
      else
        var shaped := Shaped(ts.value, signature);
        if shaped.Err? then shaped
        else if shaped.value.rows == 0 then Err(NoRows)
        else if signature.Some? && signature.value.width.Some? && shaped.value.cols != signature.value.width.value then
          Err(WrongWidth)
        else shaped
  }

  // ---- the code's loops ----------------------------------------------------

  method CollectBlocks(ts: seq<Tensor>) returns (r: Result<map<string, Matrix>, Error>, names: seq<string>)
    requires forall t <- ts :: Valid(t)
    ensures r == Collect(ts, map[])
    ensures r.Ok? ==> names == Names(ts)
  {
    var byName: map<string, Matrix> := map[];
    names := [];
    for i := 0 to |ts|
      invariant names == Names(ts[..i])
      invariant Collect(ts[i..], byName) == Collect(ts, map[])
    {
      assert ts[i..][1..] == ts[i + 1..];
      if ts[i].name in byName {
        return Err(AppearsTwice), names;
      }
      if !Columnar(ts[i]) {
        return Err(BadRank), names;
      }
      byName := byName[ts[i].name := Block(ts[i])];
      names := names + [ts[i].name];
    }
    assert ts[..|ts|] == ts;
    r := Ok(byName);
  }

  lemma NothingMissingOrUnknown(names: seq<string>, keys: set<string>)
    ensures (set n <- names | n !in keys) == {} && (set n <- keys | n !in names) == {} <==>
            (set n <- names) == keys
  {
    var missing, unknown := set n <- names | n !in keys, set n <- keys | n !in names;
    if (set n <- names) == keys {
      assert forall n :: n in names <==> n in keys;
    } else {
      var n :| (n in names) != (n in keys);
      assert n in missing || n in unknown;
    }
  }

  method BuildColumns(ts: seq<Tensor>, signature: Option<Signature>) returns (r: Result<Matrix, Error>)
    requires forall t <- ts :: Valid(t)
    ensures r == Columns(ts, signature)
  {
    var collected, order := CollectBlocks(ts);
    if collected.Err? {
      return Err(collected.error);
    }
    var byName := collected.value;
    Collected(ts);
    if signature.Some? {
      order := signature.value.names;
      var missing := set n <- order | n !in byName;
      var unknown := set n <- byName.Keys | n !in order;
      NothingMissingOrUnknown(order, byName.Keys);
      if missing != {} || unknown != {} {
        return Err(SignatureMismatch);
      }
    }
    r := StackNamed(byName, order);
  }

  method BuildArray(items: seq<Item>, signature: Option<Signature>) returns (r: Result<Matrix, Error>)
    ensures r == ToArray(items, signature)
  {
    if items == [] {
      return Err(NoInputs);
    }
    var ts := ReadAll(items);
    if ts.Err? {
      return Err(ts.error);
    }
    if RowForm(ts.value, signature) {
      r := if Columnar(ts.value[0]) then Ok(RowBlock(ts.value[0])) else Err(BadRank);
    } else {
      r := BuildColumns(ts.value, signature);
    }
    if r.Ok? && r.value.rows == 0 {
      return Err(NoRows);
    }
    if r.Ok? && signature.Some? && signature.value.width.Some? && r.value.cols != signature.value.width.value {
      return Err(WrongWidth);
    }
  }

  // ---- what an accepted request means --------------------------------------

  /** The column names in the order their blocks are stacked. */
  function Order(ts: seq<Tensor>, signature: Option<Signature>): seq<string> {
    if signature.Some? then signature.value.names else Names(ts)
  }

  /** The blocks of an accepted column request, in stacking order. */
  function Blocks(ts: seq<Tensor>, signature: Option<Signature>): (blocks: seq<Matrix>)
    requires (forall t <- ts :: Valid(t)) && Columns(ts, signature).Ok?
    ensures |blocks| == |Order(ts, signature)|
  {
    Collected(ts);
    Pick(Collect(ts, map[]).value, Order(ts, signature))
  }

  lemma BlockAt(t: Tensor, i: nat, c: nat)
    requires Valid(t) && Columnar(t) && i < Block(t).rows && c < Block(t).cols
    ensures 0 <= i * Block(t).cols + c < |t.flat| && Block(t).cells[i][c] == t.flat[i * Block(t).cols + c]
  {
    BlockSize(t);
    RowsAt(t.flat, t.shape[0], Block(t).cols, i, c);
  }

  lemma NamedCells(byName: map<string, Matrix>, order: seq<string>, m: Matrix, block: Matrix, j: nat, i: nat, c: nat)
    requires (forall n <- byName :: byName[n].Valid()) && (forall n <- order :: n in byName)
    requires StackNamed(byName, order) == Ok(m) && j < |order| && byName[order[j]] == block
    requires i < m.rows && c < block.cols
    ensures var blocks := Pick(byName, order);
            && block.Valid() && block.rows == m.rows && m.Valid() && m.cols == TotalCols(blocks)
            && Offset(blocks, j) + c < m.cols && m.cells[i][Offset(blocks, j) + c] == block.cells[i][c]
  {
    assert order[j] in order;
    StackAt(Pick(byName, order), byName[order[0]].rows, i, j, c);
  }

  lemma {:induction false} NamedBlock(ts: seq<Tensor>, t: Tensor)
    requires (forall u <- ts :: Valid(u)) && t in ts && Collect(ts, map[]).Ok?
    ensures Columnar(t) && t.name in Collect(ts, map[]).value && Collect(ts, map[]).value[t.name] == Block(t)
  {
    Collected(ts);
  }

  lemma {:induction false} AcceptedColumns(ts: seq<Tensor>, signature: Option<Signature>)
    requires (forall u <- ts :: Valid(u)) && Columns(ts, signature).Ok?
    ensures Collect(ts, map[]).Ok? && (forall n <- Collect(ts, map[]).value :: Collect(ts, map[]).value[n].Valid())
    ensures forall n <- Order(ts, signature) :: n in Collect(ts, map[]).value
    ensures Columns(ts, signature) == StackNamed(Collect(ts, map[]).value, Order(ts, signature))
    ensures Blocks(ts, signature) == Pick(Collect(ts, map[]).value, Order(ts, signature))
  {
    Collected(ts);
  }

  lemma CellsComeFromTheirBlock(byName: map<string, Matrix>, order: seq<string>, ts: seq<Tensor>, m: Matrix, t: Tensor,
                                j: nat, i: nat, c: nat)
    requires (forall u <- ts :: Valid(u)) && Collect(ts, map[]) == Ok(byName) && t in ts && Columnar(t)
    requires (forall n <- byName :: byName[n].Valid()) && (forall n <- order :: n in byName)
    requires StackNamed(byName, order) == Ok(m) && j < |order| && order[j] == t.name && i < m.rows && c < Block(t).cols
    ensures var blocks := Pick(byName, order);
            && t.shape[0] == m.rows && m.Valid() && m.cols == TotalCols(blocks) && Offset(blocks, j) + c < m.cols
            && IsCell(m.cells[i][Offset(blocks, j) + c], t, i, c)
  {
    NamedBlock(ts, t);
    NamedCells(byName, order, m, Block(t), j, i, c);
    BlockAt(t, i, c);
  }

  /** The value is the tensor's at row `i`, column `c`. */
  predicate IsCell(value: real, t: Tensor, i: nat, c: nat)
    requires Valid(t) && Columnar(t)
  {
    0 <= i * Block(t).cols + c < |t.flat| && value == t.flat[i * Block(t).cols + c]
  }

  /** An accepted column request: each tensor has the array's number of rows, and cell `[i, c]` of the
      tensor named at position `j` is cell `[i, start + c]` of the array, where `start` is the total
      width of the columns before it. */
  lemma {:induction false} CellsComeFromTheirTensor(ts: seq<Tensor>, signature: Option<Signature>, t: Tensor,
                                                    j: nat, i: nat, c: nat)
    requires (forall u <- ts :: Valid(u)) && Columns(ts, signature).Ok?
    requires j < |Order(ts, signature)| && t in ts && t.name == Order(ts, signature)[j]
    requires i < Columns(ts, signature).value.rows && Columnar(t) && c < Block(t).cols
    ensures var m, blocks := Columns(ts, signature).value, Blocks(ts, signature);
            && t.shape[0] == m.rows && m.cols == TotalCols(blocks)
            && Offset(blocks, j) + c < m.cols
            && IsCell(m.cells[i][Offset(blocks, j) + c], t, i, c)
  {
    AcceptedColumns(ts, signature);
    var named, m := Collect(ts, map[]).value, Columns(ts, signature).value;
    CellsComeFromTheirBlock(named, Order(ts, signature), ts, m, t, j, i, c);
  }

  /** An accepted block of rows is the tensor's data, row by row. */
  lemma RowsComeFromTheTensor(items: seq<Item>, signature: Option<Signature>, i: nat, c: nat)
    requires ToArray(items, signature).Ok? && RowForm(ReadAll(items).value, signature)
    requires i < ToArray(items, signature).value.rows && c < ToArray(items, signature).value.cols
    ensures var m, flat := ToArray(items, signature).value, ReadAll(items).value[0].flat;
            0 <= i * m.cols + c < |flat| && m.cells[i][c] == flat[i * m.cols + c]
  {
    var t, m := ReadAll(items).value[0], ToArray(items, signature).value;
    BlockSize(t);
    if |t.shape| == 2 {
      RowsAt(t.flat, t.shape[0], t.shape[1], i, c);
    } else {
      assert i == 0 && i * m.cols + c == c;
    }
  }

  // ---- which requests are accepted -----------------------------------------

  /** The number of elements is the product of the dimensions; a scalar has one. */
  lemma {:induction false} ProductOfBoth(a: seq<int>, b: seq<int>, n: int)
    ensures Product(a + b) == Product(a) * Product(b) && Product([n]) == n && Product([]) == 1
  {
    if a == [] {
      assert a + b == b;
    } else {
      assert (a + b)[1..] == a[1..] + b;
      ProductOfBoth(a[1..], b, n);
      assert a[0] * (Product(a[1..]) * Product(b)) == (a[0] * Product(a[1..])) * Product(b);
    }
    assert [n][1..] == [];
  }

  /** A named tensor of a numeric datatype, with as many numbers as its dimensions, none negative, say. */
  predicate Sound(item: Item) {
    && item.name != "" && item.numeric && item.shape.Some? && item.data.Some?
    && (forall d <- item.shape.value :: d >= 0) && |item.data.value| == Product(item.shape.value)
  }

  predicate OneOrTwoDimensions(item: Item) {
    item.shape.Some? && (|item.shape.value| == 1 || |item.shape.value| == 2)
  }

  function RowsOf(item: Item): int { if OneOrTwoDimensions(item) then item.shape.value[0] else 0 }

  /** The columns a tensor takes as a column of its own. */
  function ColumnsOf(item: Item): int {
    if OneOrTwoDimensions(item) && |item.shape.value| == 2 then item.shape.value[1] else 1
  }

  function WidthNamed(items: seq<Item>, name: string): int {
    if items == [] then 0
    else if items[0].name == name then ColumnsOf(items[0])
    else WidthNamed(items[1..], name)
  }

  /** The columns of the tensors named, together. */
  function WidthOf(items: seq<Item>, names: seq<string>): int {
    if names == [] then 0 else WidthNamed(items, names[0]) + WidthOf(items, names[1..])
  }

  /** The signature takes this width, or any. */
  predicate Takes(signature: Option<Signature>, width: int) {
    signature.Some? && signature.value.width.Some? ==> signature.value.width.value == width
  }

  predicate IsRows(items: seq<Item>, signature: Option<Signature>) {
    |items| == 1 && (signature.None? || items[0].name !in signature.value.names)
  }

  /** One tensor of rows: `[N, F]` with a row at least, or `[F]`, as wide as the signature. */
  predicate RowsAccepted(item: Item, signature: Option<Signature>) {
    Sound(item) && OneOrTwoDimensions(item) &&
    if |item.shape.value| == 1 then Takes(signature, item.shape.value[0])
    else item.shape.value[0] >= 1 && Takes(signature, item.shape.value[1])
  }

  /** No name twice, all of one number of rows, and exactly the columns named. */
  ghost predicate ColumnsFit(items: seq<Item>, names: seq<string>) {
    && items != [] && (forall item <- items :: OneOrTwoDimensions(item) && RowsOf(item) == RowsOf(items[0]))
    && (forall i, j | 0 <= i < j < |items| :: items[i].name != items[j].name)
    && (forall item <- items :: item.name in names) && (forall n <- names :: exists item <- items :: item.name == n)
  }

  function NamesOf(items: seq<Item>): seq<string> { seq(|items|, i requires 0 <= i < |items| => items[i].name) }

  /** Columns that fit the signature, or each other, with a row at least and as wide as the signature. */
  ghost predicate ColumnsAccepted(items: seq<Item>, signature: Option<Signature>) {
    var names := if signature.Some? then signature.value.names else NamesOf(items);
    && (forall item <- items :: Sound(item)) && ColumnsFit(items, names) && RowsOf(items[0]) >= 1
    && Takes(signature, WidthOf(items, names))
  }

  lemma SoundIsRead(item: Item)
    ensures ReadTensor(item).Ok? <==> Sound(item)
    ensures ReadTensor(item).Ok? ==>
              var t := ReadTensor(item).value;
              t.name == item.name && item.shape == Some(t.shape) && item.data == Some(t.flat) && Valid(t)
  {
  }

  lemma SoundAreRead(items: seq<Item>)
    ensures ReadAll(items).Ok? <==> forall item <- items :: Sound(item)
    ensures ReadAll(items).Ok? ==> forall i | 0 <= i < |items| ::
              var t := ReadAll(items).value[i];
              t.name == items[i].name && items[i].shape == Some(t.shape) && Valid(t)
  {
    forall item | item in items
      ensures ReadTensor(item).Ok? <==> Sound(item)
    {
      SoundIsRead(item);
    }
    if ReadAll(items).Ok? {
      forall i | 0 <= i < |items|
        ensures var t := ReadAll(items).value[i];
                t.name == items[i].name && items[i].shape == Some(t.shape) && Valid(t)
      {
        SoundIsRead(items[i]);
      }
    }
  }

  lemma RowsAcceptedIff(items: seq<Item>, signature: Option<Signature>)
    requires IsRows(items, signature)
    ensures ToArray(items, signature).Ok? <==> RowsAccepted(items[0], signature)
  {
    SoundAreRead(items);
    assert items[0] in items;
    if ReadAll(items).Ok? && Columnar(ReadAll(items).value[0]) {
      BlockSize(ReadAll(items).value[0]);
    }
  }

  lemma {:induction false} NamedWidth(items: seq<Item>, ts: seq<Tensor>, i: nat)
    requires |items| == |ts| && i < |ts| && Distinct(ts)
    requires forall k | 0 <= k < |ts| :: ts[k].name == items[k].name && items[k].shape == Some(ts[k].shape)
    ensures WidthNamed(items, ts[i].name) == ColumnsOf(items[i])
  {
    if i > 0 {
      assert ts[0].name != ts[i].name;
      NamedWidth(items[1..], ts[1..], i - 1);
    }
  }

  /** The tensors read from the items, one each. */
  ghost predicate ReadFrom(items: seq<Item>, ts: seq<Tensor>) {
    && |items| == |ts|
    && forall k | 0 <= k < |ts| :: Valid(ts[k]) && ts[k].name == items[k].name && items[k].shape == Some(ts[k].shape)
  }

  lemma WidthOfNamed(items: seq<Item>, ts: seq<Tensor>, t: Tensor)
    requires ReadFrom(items, ts) && Distinct(ts) && t in ts && Columnar(t)
    ensures Block(t).cols == WidthNamed(items, t.name)
  {
    var i :| 0 <= i < |ts| && ts[i] == t;
    NamedWidth(items, ts, i);
    BlockSize(t);
  }

  lemma {:induction false} WidthsAdd(items: seq<Item>, ts: seq<Tensor>, byName: map<string, Matrix>, names: seq<string>)
    requires ReadFrom(items, ts) && Distinct(ts) && (forall n <- names :: n in byName)
    requires forall t <- ts :: Columnar(t) && t.name in byName && byName[t.name] == Block(t)
    requires forall n <- names :: exists t <- ts :: t.name == n
    ensures TotalCols(Pick(byName, names)) == WidthOf(items, names)
  {
    if names != [] {
      assert names[0] in names && forall n <- names[1..] :: n in names;
      var t :| t in ts && t.name == names[0];
      WidthOfNamed(items, ts, t);
      WidthsAdd(items, ts, byName, names[1..]);
      assert Pick(byName, names)[1..] == Pick(byName, names[1..]);
    }
  }

  /** What stacking asks of the tensors themselves. */
  ghost predicate Stackable(ts: seq<Tensor>, names: seq<string>) {
    && ts != [] && (forall t <- ts :: Columnar(t)) && Distinct(ts)
    && (forall i | 0 <= i < |ts| :: RowsIn(ts[i]) == RowsIn(ts[0]))
    && (forall t <- ts :: t.name in names) && (forall n <- names :: exists t <- ts :: t.name == n)
  }

  function RowsIn(t: Tensor): int { if Columnar(t) then t.shape[0] else 0 }

  lemma StackableIff(ts: seq<Tensor>, signature: Option<Signature>)
    requires (forall t <- ts :: Valid(t)) && ts != []
    ensures Columns(ts, signature).Ok? <==> Stackable(ts, Order(ts, signature))
    ensures Columns(ts, signature).Ok? ==> Columns(ts, signature).value.rows == RowsIn(ts[0])
  {
    var order := Order(ts, signature);
    Collected(ts);
    if Collect(ts, map[]).Ok? {
      KeysAreNames(ts, order, Collect(ts, map[]).value.Keys);
      if (set n <- order) == Collect(ts, map[]).value.Keys {
        RowsAgreeIff(ts, order, Collect(ts, map[]).value);
      }
    }
  }

  lemma RowsAgreeIff(ts: seq<Tensor>, order: seq<string>, byName: map<string, Matrix>)
    requires ts != [] && (forall t <- ts :: Valid(t) && Columnar(t) && t.name in byName && byName[t.name] == Block(t))
    requires (forall n <- byName :: byName[n].Valid()) && (forall n <- order :: n in byName)
    requires (forall t <- ts :: t.name in order) && (forall n <- order :: exists t <- ts :: t.name == n)
    ensures StackNamed(byName, order).Ok? <==> forall i | 0 <= i < |ts| :: RowsIn(ts[i]) == RowsIn(ts[0])
    ensures StackNamed(byName, order).Ok? ==> StackNamed(byName, order).value.rows == RowsIn(ts[0])
  {
    forall t | t in ts
      ensures byName[t.name].rows == RowsIn(t)
    {
      BlockSize(t);
    }
    assert ts[0] in ts && ts[0].name in order && order[0] in order;
    if StackNamed(byName, order).Ok? {
      forall i | 0 <= i < |ts|
        ensures RowsIn(ts[i]) == RowsIn(ts[0])
      {
        assert ts[i] in ts && ts[i].name in order;
      }
    } else if forall i | 0 <= i < |ts| :: RowsIn(ts[i]) == RowsIn(ts[0]) {
      forall n | n in order
        ensures byName[n].rows == RowsIn(ts[0])
      {
        var t :| t in ts && t.name == n;
      }
    }
  }

  lemma KeysAreNames(ts: seq<Tensor>, order: seq<string>, keys: set<string>)
    requires keys == set t <- ts :: t.name
    ensures (set n <- order) == keys <==>
            (forall t <- ts :: t.name in order) && forall n <- order :: exists t <- ts :: t.name == n
    ensures order == Names(ts) ==> (set n <- order) == keys
  {
    assert forall t <- ts :: t.name in keys;
    if order == Names(ts) {
      forall n
        ensures n in order <==> n in keys
      {
        if n in keys {
          var t :| t in ts && t.name == n;
          var i :| 0 <= i < |ts| && ts[i] == t;
          assert order[i] == n;
        }
      }
    }
    if (set n <- order) == keys {
      assert forall n :: n in order <==> n in keys;
    }
  }

  /** A request is accepted exactly so. */
  lemma AcceptedIff(items: seq<Item>, signature: Option<Signature>)
    ensures ToArray(items, signature).Ok? <==>
            if items == [] then false
            else if IsRows(items, signature) then RowsAccepted(items[0], signature)
            else ColumnsAccepted(items, signature)
  {
    if items != [] {
      if IsRows(items, signature) {
        RowsAcceptedIff(items, signature);
      } else {
        ColumnsAcceptedIff(items, signature);
      }
    }
  }

  lemma ColumnsAcceptedIff(items: seq<Item>, signature: Option<Signature>)
    requires items != [] && !IsRows(items, signature)
    ensures ToArray(items, signature).Ok? <==> ColumnsAccepted(items, signature)
  {
    SoundAreRead(items);
    if ReadAll(items).Ok? {
      var ts := ReadAll(items).value;
      StackableIff(ts, signature);
      SameStacking(items, ts, Order(ts, signature));
      assert Names(ts) == NamesOf(items);
      if Columns(ts, signature).Ok? {
        StackedWidth(items, ts, signature);
      }
    }
  }

  lemma StackedWidth(items: seq<Item>, ts: seq<Tensor>, signature: Option<Signature>)
    requires ReadFrom(items, ts) && Stackable(ts, Order(ts, signature)) && Columns(ts, signature).Ok?
    ensures Columns(ts, signature).value.cols == WidthOf(items, Order(ts, signature))
  {
    AcceptedColumns(ts, signature);
    Collected(ts);
    WidthsAdd(items, ts, Collect(ts, map[]).value, Order(ts, signature));
  }

  lemma SameStacking(items: seq<Item>, ts: seq<Tensor>, names: seq<string>)
    requires ReadFrom(items, ts) && items != []
    ensures Stackable(ts, names) <==> ColumnsFit(items, names)
    ensures Stackable(ts, names) ==> RowsIn(ts[0]) == RowsOf(items[0])
  {
    assert forall k | 0 <= k < |ts| :: ts[k] in ts && items[k] in items && RowsIn(ts[k]) == RowsOf(items[k]);
  }

  // ---- the order of the inputs does not matter -----------------------------

  lemma TwoPositions<T>(s: seq<T>, i: nat, j: nat)
    requires i < j < |s| && s[i] == s[j]
    ensures multiset(s)[s[i]] >= 2
  {
    assert s == s[..i] + [s[i]] + s[i + 1..j] + [s[j]] + s[j + 1..];
  }

  lemma {:induction false} AtTwoPositions<T>(s: seq<T>, x: T)
    requires multiset(s)[x] >= 2
    ensures exists i, j :: 0 <= i < j < |s| && s[i] == s[j] == x
  {
    var rest := s[1..];
    assert s == [s[0]] + rest;
    if s[0] == x {
      assert multiset(rest)[x] >= 1;
      var k :| 0 <= k < |rest| && rest[k] == x;
      assert s[0] == s[k + 1] == x;
    } else {
      AtTwoPositions(rest, x);
      var i, j :| 0 <= i < j < |rest| && rest[i] == rest[j] == x;
      assert s[i + 1] == s[j + 1] == x;
    }
  }

  lemma SameItemsSameTensors(items: seq<Item>, others: seq<Item>)
    requires multiset(items) == multiset(others)
    ensures ReadAll(items).Ok? <==> ReadAll(others).Ok?
    ensures ReadAll(items).Ok? ==> forall t :: t in ReadAll(items).value <==> t in ReadAll(others).value
    ensures |items| == |others|
  {
    assert |multiset(items)| == |items| && |multiset(others)| == |others|;
    assert forall x :: x in items <==> x in multiset(items);
    assert forall x :: x in others <==> x in multiset(others);
    if ReadAll(items).Ok? {
      TensorsAreItems(items);
      TensorsAreItems(others);
    }
  }

  /** A tensor determines the item it was read from. */
  function ItemOf(t: Tensor): Item { Item(t.name, Some(t.shape), true, Some(t.flat)) }

  lemma ReadIsItem(item: Item, t: Tensor)
    requires ReadTensor(item) == Ok(t)
    ensures item == ItemOf(t)
  {
  }

  lemma {:induction false} TensorsAreItems(items: seq<Item>)
    requires ReadAll(items).Ok?
    ensures forall i | 0 <= i < |items| :: items[i] == ItemOf(ReadAll(items).value[i])
    ensures forall t :: t in ReadAll(items).value <==> ItemOf(t) in items
  {
    var ts := ReadAll(items).value;
    forall i | 0 <= i < |items|
      ensures items[i] == ItemOf(ts[i])
    {
      ReadIsItem(items[i], ts[i]);
    }
    forall t
      ensures t in ts <==> ItemOf(t) in items
    {
      InBoth(items, ts, t);
    }
  }

  lemma InBoth(items: seq<Item>, ts: seq<Tensor>, t: Tensor)
    requires |items| == |ts| && forall i | 0 <= i < |items| :: items[i] == ItemOf(ts[i])
    ensures t in ts <==> ItemOf(t) in items
  {
    if ItemOf(t) in items {
      var i :| 0 <= i < |items| && items[i] == ItemOf(t);
      assert ts[i] == t;
    }
  }

  lemma DistinctEitherWay(items: seq<Item>, others: seq<Item>)
    requires multiset(items) == multiset(others) && ReadAll(items).Ok? && ReadAll(others).Ok?
    requires Distinct(ReadAll(items).value)
    ensures Distinct(ReadAll(others).value)
  {
    var ts, us := ReadAll(items).value, ReadAll(others).value;
    SameItemsSameTensors(items, others);
    TensorsAreItems(items);
    TensorsAreItems(others);
    forall i, j | 0 <= i < j < |us|
      ensures us[i].name != us[j].name
    {
      if us[i].name == us[j].name {
        assert us[i] in ts && us[j] in ts;
        assert us[i] == us[j];
        TwoPositions(others, i, j);
        AtTwoPositions(items, others[i]);
        assert false;
      }
    }
  }

  lemma SameCollection(ts: seq<Tensor>, us: seq<Tensor>)
    requires (forall t <- ts :: Valid(t)) && (forall t <- us :: Valid(t))
    requires (forall t :: t in ts <==> t in us) && (Distinct(ts) <==> Distinct(us))
    ensures Collect(ts, map[]).Ok? <==> Collect(us, map[]).Ok?
    ensures Collect(ts, map[]).Ok? ==> Collect(ts, map[]) == Collect(us, map[])
  {
    Collected(ts);
    Collected(us);
    if Collect(ts, map[]).Ok? {
      var a, b := Collect(ts, map[]).value, Collect(us, map[]).value;
      assert a.Keys == b.Keys;
      forall n <- a.Keys
        ensures a[n] == b[n]
      {
        var t :| t in ts && t.name == n;
      }
      assert a == b;
    }
  }

  /** With a signature, permuting the input tensors changes neither acceptance nor the array. */
  lemma OrderOfInputsIsIrrelevant(items: seq<Item>, others: seq<Item>, signature: Signature)
    requires multiset(items) == multiset(others)
    ensures ToArray(items, Some(signature)).Ok? <==> ToArray(others, Some(signature)).Ok?
    ensures ToArray(items, Some(signature)).Ok? ==> ToArray(items, Some(signature)) == ToArray(others, Some(signature))
  {
    SameItemsSameTensors(items, others);
    if ReadAll(items).Ok? {
      var ts, us := ReadAll(items).value, ReadAll(others).value;
      if |items| == 1 {
        assert ts[0] in us;
        assert ts == us;
      } else {
        if Distinct(ts) {
          DistinctEitherWay(items, others);
        } else if Distinct(us) {
          DistinctEitherWay(others, items);
        }
        SameCollection(ts, us);
      }
    }
  }
}
