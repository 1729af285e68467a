/** Workload shapes by family and global index. */
module CaseShapes {
  import opened Results
  import opened CorpusDesign

  datatype Axes = Plane(m: int, n: int) | Box(m: int, n: int, k: int)

  const HISTORICAL_UNIVERSE_START := 100
  const PAIR_DISJOINT_SUCCESSOR_START := 280
  const FULL_REPLACEMENT_SUCCESSOR_START := 520
  const TWO_FAMILY_REPLACEMENT_SUCCESSOR_START := 580
  const REPLAY_RECOVERY_SUCCESSOR_START := 640
  const FRESH_SUCCESSOR_START := 700

  predicate Within(start: int, g: int) {
    start <= g < start + UNIVERSE_CASES_PER_FAMILY
  }

  function BlockShape(offset: int, rows: int, blockStride: int, positionStride: int, columns: int, factor: int,
                      buckets: int): Axes
    requires buckets > 0
  {
    Plane(rows + blockStride * (offset / 3) + positionStride * (offset % 3),
          columns + 32 * ((factor * (offset / 3) + offset % 3) % buckets))
  }

  function ElementwiseShape(g: int): Axes {
    if Within(FRESH_SUCCESSOR_START, g) then BlockShape(g - FRESH_SUCCESSOR_START, 23000, 512, 64, 1024, 7, 20)
    else if Within(REPLAY_RECOVERY_SUCCESSOR_START, g) then
      BlockShape(g - REPLAY_RECOVERY_SUCCESSOR_START, 11000, 512, 64, 1024, 7, 20)
    else if Within(TWO_FAMILY_REPLACEMENT_SUCCESSOR_START, g) then
      BlockShape(g - TWO_FAMILY_REPLACEMENT_SUCCESSOR_START, 9000, 1152, 96, 1088, 13, 29)
    else if Within(FULL_REPLACEMENT_SUCCESSOR_START, g) then
      BlockShape(g - FULL_REPLACEMENT_SUCCESSOR_START, 8208, 1280, 128, 1024, 11, 31)
    else Plane(512 + 64 * g, 768 + 32 * ((17 * g) % 40))
  }

  function TransposeShape(g: int): Axes {
    if Within(FRESH_SUCCESSOR_START, g) then
      Plane(33000 + 37 * (g - FRESH_SUCCESSOR_START), 1024 + 32 * ((13 * (g - FRESH_SUCCESSOR_START)) % 20))
    else if Within(REPLAY_RECOVERY_SUCCESSOR_START, g) then
      Plane(30000 + 37 * (g - REPLAY_RECOVERY_SUCCESSOR_START),
            1024 + 32 * ((13 * (g - REPLAY_RECOVERY_SUCCESSOR_START)) % 20))
    else if Within(TWO_FAMILY_REPLACEMENT_SUCCESSOR_START, g) then
      Plane(32000 + 61 * (g - TWO_FAMILY_REPLACEMENT_SUCCESSOR_START),
            1024 + 32 * ((11 * (g - TWO_FAMILY_REPLACEMENT_SUCCESSOR_START)) % 25))
    else Plane(513 + 53 * g, 769 + 37 * ((13 * g) % 40))
  }

  function IndexedUpdateColumns(g: int): int {
    if g >= REPLAY_RECOVERY_SUCCESSOR_START then 256 + 32 * ((g - REPLAY_RECOVERY_SUCCESSOR_START) % 7)
    else if g >= TWO_FAMILY_REPLACEMENT_SUCCESSOR_START then
      256 + 32 * ((g - TWO_FAMILY_REPLACEMENT_SUCCESSOR_START) % 9)
    else if 525 <= g <= 527 then 640
    else if 540 <= g <= 543 || 556 <= g <= 559 then 608
    else if 571 <= g <= 575 then 576
    else 256 + 32 * (g % 16)
  }

  function MatmulShape(g: int): Axes {
    Box(if g >= PAIR_DISJOINT_SUCCESSOR_START then 257 + 4 * (g - PAIR_DISJOINT_SUCCESSOR_START)
        else 64 + 16 * (g % 10),
        80 + 16 * ((7 * g) % 10), 64 + 16 * ((3 * g) % 13))
  }

  function Shape(family: Family, g: int): Axes
    requires family != Transformer
  {
    match family
    case Elementwise => ElementwiseShape(g)
    case Transpose => TransposeShape(g)
    case Reduction => Plane(512 + 96 * g, [32, 64, 128, 256, 512, 1024][g % 6])
    case Softmax => Plane(128 + 16 * g, 64 + 32 * (g % 16))
    case CrossEntropy => Plane(128 + 16 * g, 64 + 32 * (g % 16))
    case IndexedRead => Plane(1024 + 128 * g, 256 + 32 * (g % 16))
    case IndexedUpdate => Plane(1024 + 128 * g, IndexedUpdateColumns(g))
    case Composite => Plane(32 + 8 * (g - HISTORICAL_UNIVERSE_START), 768)
    case Concurrent => Plane(32 + 8 * (g - HISTORICAL_UNIVERSE_START), 768)
    case Matmul => MatmulShape(g)
  }

  /** Equal residues modulo 10 after scaling by 7, and modulo 13 after scaling by 3, mean equal
      residues; and 10 and 13 have no common factor. */
  lemma CoprimeResidues(a: int, b: int)
    requires a % 10 == b % 10 && (3 * a) % 13 == (3 * b) % 13
    ensures (a - b) % 130 == 0
  {
    var t, u := a / 10 - b / 10, (3 * a) / 13 - (3 * b) / 13;
    assert a - b == 10 * t && 3 * (a - b) == 13 * u;
    var k := 7 * t - 3 * u;
    assert a - b == 130 * k;
    Multiple(k, 130);
  }

  lemma Multiple(k: int, n: int)
    requires n > 0
    ensures (n * k) % n == 0
  {
    Remainder(k, 0, n);
  }

  lemma Remainder(k: int, r: int, n: int)
    requires 0 <= r < n
    ensures (n * k + r) % n == r
  {
    var q := (n * k + r) / n;
    assert n * (q - k) == r - (n * k + r) % n;
    FarMultiple(q - k, n);
  }

  lemma FarMultiple(d: int, n: int)
    requires n > 0
    ensures d >= 1 ==> n * d >= n
    ensures d <= -1 ==> n * d <= -n
  {
  }

  /** Row counts of neighbouring authored windows differ modulo 32, except the last two. */
  function RowResidue(g: int): int {
    if Within(FRESH_SUCCESSOR_START, g) || Within(REPLAY_RECOVERY_SUCCESSOR_START, g) then 24
    else if Within(TWO_FAMILY_REPLACEMENT_SUCCESSOR_START, g) then 8
    else if Within(FULL_REPLACEMENT_SUCCESSOR_START, g) then 16
    else 0
  }

  lemma ElementwiseResidue(g: int)
    ensures ElementwiseShape(g).m % 32 == RowResidue(g)
  {
    var m := ElementwiseShape(g).m;
    if Within(FRESH_SUCCESSOR_START, g) {
      Remainder(718 + 16 * ((g - 700) / 3) + 2 * ((g - 700) % 3), 24, 32);
    } else if Within(REPLAY_RECOVERY_SUCCESSOR_START, g) {
      Remainder(343 + 16 * ((g - 640) / 3) + 2 * ((g - 640) % 3), 24, 32);
    } else if Within(TWO_FAMILY_REPLACEMENT_SUCCESSOR_START, g) {
      Remainder(281 + 36 * ((g - 580) / 3) + 3 * ((g - 580) % 3), 8, 32);
    } else if Within(FULL_REPLACEMENT_SUCCESSOR_START, g) {
      Remainder(256 + 40 * ((g - 520) / 3) + 4 * ((g - 520) % 3), 16, 32);
    } else {
      Remainder(16 + 2 * g, 0, 32);
    }
  }

  /** Inside one authored window the row counts ascend. */
  lemma RowsAscend(a: int, b: int)
    requires a < b
    ensures 1280 * (a / 3) + 128 * (a % 3) < 1280 * (b / 3) + 128 * (b % 3)
    ensures 1152 * (a / 3) + 96 * (a % 3) < 1152 * (b / 3) + 96 * (b % 3)
    ensures 512 * (a / 3) + 64 * (a % 3) < 512 * (b / 3) + 64 * (b % 3)
  {
  }

  lemma ElementwiseDistinct(a: int, b: int)
    requires a < b
    ensures ElementwiseShape(a).m != ElementwiseShape(b).m
  {
    ElementwiseResidue(a);
    ElementwiseResidue(b);
    if RowResidue(a) == RowResidue(b) {
      RowsAscend(a - 520, b - 520);
      RowsAscend(a - 580, b - 580);
      RowsAscend(a - 640, b - 640);
      RowsAscend(a - 700, b - 700);
    }
  }

  lemma RowsMeet(a: int, b: int)
    ensures a < 580 && Within(640, b) && 513 + 53 * a == 30000 + 37 * (b - 640) ==> a == 578 && b == 671
    ensures Within(580, a) && Within(640, b) && 32000 + 61 * (a - 580) == 30000 + 37 * (b - 640) ==>
              a == 583 && b == 699
    ensures Within(580, a) && Within(700, b) && 32000 + 61 * (a - 580) == 33000 + 37 * (b - 700) ==>
              a == 597 && b == 701
  {
    if Within(640, b) && 513 + 53 * a == 30000 + 37 * (b - 640) { OnlyMeeting(53, a - 578, b - 671, 7, -10); }
    if Within(640, b) && 32000 + 61 * (a - 580) == 30000 + 37 * (b - 640) {
      OnlyMeeting(61, a - 583, b - 699, 17, -28);
    }
    if Within(700, b) && 32000 + 61 * (a - 580) == 33000 + 37 * (b - 700) {
      OnlyMeeting(61, a - 597, b - 701, 17, -28);
    }
  }

  lemma OnlyMeeting(p: int, x: int, y: int, u: int, v: int)
    requires p > 0 && p * x == 37 * y && u * p + v * 37 == 1
    ensures -p < y < p ==> x == 0 && y == 0
  {
    Coprime(p, 37, x, y, u, v);
    FarMultiple(u * y + v * x, p);
  }

  /** `p` and `q` without a common factor: equal multiples of them are multiples of both. */
  lemma Coprime(p: int, q: int, x: int, y: int, u: int, v: int)
    requires p * x == q * y && u * p + v * q == 1
    ensures x == q * (u * y + v * x) && y == p * (u * y + v * x)
  {
    calc {
      x;
      (u * p + v * q) * x;
      u * (p * x) + v * q * x;
      u * (q * y) + v * q * x;
      q * (u * y + v * x);
    }
    calc {
      y;
      (u * p + v * q) * y;
      u * p * y + v * (q * y);
      u * p * y + v * (p * x);
      p * (u * y + v * x);
    }
  }

  /** Transpose row counts meet in three pairs of indices only, all of them across windows; and the columns of these
      pairs differ. */
  lemma TransposeDistinct(a: int, b: int)
    requires a < b
    ensures TransposeShape(a).m == TransposeShape(b).m <==> (a, b) in {(578, 671), (583, 699), (597, 701)}
    ensures TransposeShape(a) != TransposeShape(b)
  {
    RowsMeet(a, b);
  }

  lemma MatmulRepeats(a: int, b: int)
    requires a < b
    ensures MatmulShape(a) == MatmulShape(b) <==> b < PAIR_DISJOINT_SUCCESSOR_START && (b - a) % 130 == 0
  {
    if b < PAIR_DISJOINT_SUCCESSOR_START {
      if MatmulShape(a) == MatmulShape(b) { CoprimeResidues(b, a); }
      if (b - a) % 130 == 0 {
        var k := (b - a) / 130;
        assert b == a + 130 * k;
        Shifted(a, 13 * k, 10);
        Shifted(7 * a, 91 * k, 10);
        Shifted(3 * a, 30 * k, 13);
      }
    }
  }

  lemma Shifted(x: int, k: int, n: int)
    requires n > 0
    ensures (x + n * k) % n == x % n
  {
    var q, r := x / n, x % n;
    assert x + n * k == n * (q + k) + r;
    Remainder(q + k, r, n);
  }

  /** Over all generations, past and future, two indices of one family share a shape exactly when they are matmul
      indices a multiple of 130 apart and both from before the successor that was made disjoint. */
  lemma ShapesRepeatExactly(family: Family, a: int, b: int)
    requires family != Transformer && a < b
    ensures Shape(family, a) == Shape(family, b) <==>
              family == Matmul && b < PAIR_DISJOINT_SUCCESSOR_START && (b - a) % 130 == 0
  {
    match family
    case Elementwise => ElementwiseDistinct(a, b);
    case Transpose => TransposeDistinct(a, b);
    case Matmul => MatmulRepeats(a, b);
    case _ =>
  }

  /** In every universe, two cases of one family never share a shape. */
  lemma ShapesDistinct(family: Family, universeStart: int, a: int, b: int)
    requires family != Transformer
    requires Within(universeStart, a) && Within(universeStart, b) && a != b
    ensures Shape(family, a) != Shape(family, b)
  {
    var x, y := if a < b then a else b, if a < b then b else a;
    assert 0 < y - x < 130;
    hide Shape;
    ShapesRepeatExactly(family, x, y);
  }

  /** From the first generation on every axis is positive, and the rows of every family but matmul grow inside each
      generation. */
  lemma ShapesGrow(family: Family, g: int)
    requires family != Transformer && g >= 100
    ensures Shape(family, g).m >= 1 && Shape(family, g).n >= 1 && (Shape(family, g).Box? ==> Shape(family, g).k >= 1)
    ensures family != Matmul && (g + 1) % 60 != 40 ==> Shape(family, g).m < Shape(family, g + 1).m
  {
    match family
    case Elementwise => ElementwiseGrows(g);
    case Transpose => TransposeGrows(g);
    case Reduction => WidthsDouble(g % 6);
    case _ =>
  }

  lemma ElementwiseGrows(g: int)
    requires g >= 100
    ensures ElementwiseShape(g).m >= 1 && ElementwiseShape(g).n >= 1
    ensures (g + 1) % 60 != 40 ==> ElementwiseShape(g).m < ElementwiseShape(g + 1).m
  {
    RowsAscend(g - 520, g - 519);
    RowsAscend(g - 580, g - 579);
    RowsAscend(g - 640, g - 639);
    RowsAscend(g - 700, g - 699);
  }

  lemma TransposeGrows(g: int)
    requires g >= 100
    ensures TransposeShape(g).m >= 1 && TransposeShape(g).n >= 1
    ensures (g + 1) % 60 != 40 ==> TransposeShape(g).m < TransposeShape(g + 1).m
  {
  }

  // ----- the memory a case occupies

  const MIB := 1024 * 1024
  const APPLICABILITY_MIN_BYTES := 64 * MIB
  const PROBE_8_GIB := 256 * MIB
  const PROBE_16_GIB := 512 * MIB

  /** The bytes that the capacity policy governs; the other families are not governed. */
  function WorkingSet(family: Family, g: int): Option<int> {
    match family
    case Elementwise => Some(2 * ElementwiseShape(g).m * ElementwiseShape(g).n * 4)
    case Transpose => Some(2 * TransposeShape(g).m * TransposeShape(g).n * 4)
    case IndexedRead => var shape := Shape(IndexedRead, g); Some(shape.m * shape.n * 4)
    case IndexedUpdate => var shape := Shape(IndexedUpdate, g); Some(3 * shape.m * shape.n * 4 + shape.m * 8)
    case _ => None
  }

  predicate Fits(family: Family, g: int, maximum: int) {
    match WorkingSet(family, g)
    case None => true
    case Some(bytes) => bytes <= maximum && (family == Elementwise ==> APPLICABILITY_MIN_BYTES <= bytes)
  }

  ghost predicate DesignFits(universeStart: int, maximum: int) {
    forall family, g :: Within(universeStart, g) ==> Fits(family, g, maximum)
  }

  /** The governed cases that the larger tier cannot hold. */
  predicate TooLarge(family: Family, g: int) {
    (family == Transpose && g == 563) || (family == IndexedUpdate && g in {479, 494, 495, 510, 511})
  }

  lemma ProductBound(m: int, n: int, maxM: int, maxN: int)
    requires 0 <= m <= maxM && 0 <= n <= maxN
    ensures m * n <= maxM * maxN
  {
    assert (maxM - m) * n >= 0 && maxM * (maxN - n) >= 0;
  }

  lemma ElementwiseFits(g: int)
    requires 400 <= g < 760
    ensures Fits(Elementwise, g, PROBE_16_GIB)
  {
    hide ElementwiseShape, TransposeShape;
    var (maxM, maxN) := ElementwiseBounds(g);
    var m, n := ElementwiseShape(g).m, ElementwiseShape(g).n;
    ElementwiseBounded(g);
    if g < 520 { ProductBound(26112, 768, m, n); } else { ProductBound(8208, 1024, m, n); }
    assert 8 * 1024 * 1024 <= m * n;
    ProductBound(m, n, maxM, maxN);
    assert m * n <= 64 * 1024 * 1024;
  }

  function ElementwiseBounds(g: int): (int, int) {
    if g >= 640 then (32856, 1632) else if g >= 520 then (32784, 1984)
    else if (17 * g) % 40 == 39 then (31680, 2016) else (33728, 1984)
  }

  lemma ElementwiseBounded(g: int)
    requires 400 <= g < 760
    ensures (if g < 520 then 26112 else 8208) <= ElementwiseShape(g).m <= ElementwiseBounds(g).0
    ensures (if g < 520 then 768 else 1024) <= ElementwiseShape(g).n <= ElementwiseBounds(g).1
  {
    if g < 520 {
      BaseBounded(g);
    } else {
      hide ElementwiseBounds;
      WindowBounded(g);
      assert ElementwiseBounds(g) == if g >= 640 then (32856, 1632) else (32784, 1984) by { BoundsOfWindow(g); }
    }
  }

  lemma BoundsOfWindow(g: int)
    requires g >= 520
    ensures ElementwiseBounds(g) == if g >= 640 then (32856, 1632) else (32784, 1984)
  {
  }

  lemma BaseBounded(g: int)
    requires 400 <= g < 520
    ensures ElementwiseShape(g) == Plane(512 + 64 * g, 768 + 32 * ((17 * g) % 40))
    ensures (17 * g) % 40 == 39 ==> g <= 487
  {
    var q, r := (17 * g) / 40, (17 * g) % 40;
    assert 17 * g == 40 * q + r;
    if r == 39 { assert g == 40 * (33 * q - 14 * g + 32) + 7; }
  }

  lemma WindowBounded(g: int)
    requires 520 <= g < 760
    ensures 8208 <= ElementwiseShape(g).m <= if g >= 640 then 32856 else 32784
    ensures 1024 <= ElementwiseShape(g).n <= if g >= 640 then 1632 else 1984
  {
    var start := if g >= 700 then 700 else if g >= 640 then 640 else if g >= 580 then 580 else 520;
    InBlocks(g - start);
    assert Within(start, g);
  }

  lemma InBlocks(offset: int)
    requires 0 <= offset < 60
    ensures 0 <= offset / 3 <= 19 && 0 <= offset % 3 <= 2
  {
  }

  lemma TransposeFits(g: int)
    requires 400 <= g < 760
    ensures Fits(Transpose, g, PROBE_16_GIB) <==> g != 563
  {
    hide TransposeShape, TransposeBounds, ElementwiseShape;
    var m, n := TransposeShape(g).m, TransposeShape(g).n;
    if g == 563 {
      TransposeAt563();
    } else {
      TransposeBounded(g);
      ProductBound(m, n, TransposeBounds(g).0, TransposeBounds(g).1);
      BoundsFit(g);
    }
    assert 2 * m * n * 4 == 8 * (m * n);
  }

  lemma TransposeAt563()
    ensures TransposeShape(563) == Plane(30352, 2212)
  {
  }

  lemma BoundsFit(g: int)
    ensures TransposeBounds(g).0 * TransposeBounds(g).1 <= 64 * 1024 * 1024
  {
  }

  function TransposeBounds(g: int): (int, int) {
    if g >= 580 then (35599, 1792) else if (13 * g) % 40 == 39 then (28232, 2212)
    else if (13 * g) % 40 == 38 then (30511, 2175) else (31200, 2138)
  }

  lemma TransposeBounded(g: int)
    requires 400 <= g < 760 && g != 563
    ensures 0 <= TransposeShape(g).m <= TransposeBounds(g).0 && 0 <= TransposeShape(g).n <= TransposeBounds(g).1
  {
    if g < 580 {
      var q, k := (13 * g) / 40, (13 * g) % 40;
      assert 13 * g == 40 * q + k;
      assert g == 40 * (37 * q - 12 * g) + 37 * k;
      if k == 39 { assert g == 40 * (37 * q - 12 * g + 36) + 3; }
      if k == 38 { assert g == 40 * (37 * q - 12 * g + 35) + 6; }
    }
  }

  lemma IndexedReadFits(g: int)
    requires 400 <= g < 760
    ensures Fits(IndexedRead, g, PROBE_16_GIB)
  {
    ProductBound(Shape(IndexedRead, g).m, Shape(IndexedRead, g).n, 98176, 736);
  }

  lemma IndexedUpdateFits(g: int)
    requires 400 <= g < 760
    ensures Fits(IndexedUpdate, g, PROBE_16_GIB) <==> g !in {479, 494, 495, 510, 511}
  {
    hide IndexedUpdateColumns, ElementwiseShape, TransposeShape;
    var m, n := 1024 + 128 * g, IndexedUpdateColumns(g);
    assert WorkingSet(IndexedUpdate, g) == Some(3 * m * n * 4 + m * 8);
    hide WorkingSet;
    IndexedUpdateBounded(g);
    UpdateBytes(m, n);
    if n <= 576 {
      ProductBound(m, n, if g < 580 then 75136 else 98176, if g < 580 then 576 else if g < 640 then 512 else 448);
    } else {
      WideUpdate(g, m, n);
    }
  }

  lemma UpdateBytes(m: int, n: int)
    ensures 3 * m * n * 4 + m * 8 == 12 * (m * n) + 8 * m
  {
  }

  lemma WideUpdate(g: int, m: int, n: int)
    requires m == 1024 + 128 * g && n in {608, 640, 672, 704, 736} && 400 <= g < 580
    requires n == 736 ==> g in {415, 431, 447, 463, 479, 495, 511}
    requires n == 704 ==> g in {414, 430, 446, 462, 478, 494, 510}
    requires (n == 672 ==> g <= 511) && (n == 640 ==> g <= 537) && (n == 608 ==> g <= 566)
    requires g in {479, 495, 511} ==> n == 736
    requires g in {494, 510} ==> n == 704
    ensures 12 * (m * n) + 8 * m <= PROBE_16_GIB <==> g !in {479, 494, 495, 510, 511}
  {
    if n == 736 { assert m * n == 736 * m; }
    else if n == 704 { assert m * n == 704 * m; }
    else if n == 672 { assert m * n == 672 * m; }
    else if n == 640 { assert m * n == 640 * m; }
    else { assert m * n == 608 * m; }
  }

  lemma IndexedUpdateBounded(g: int)
    requires 400 <= g < 760
    ensures var n := IndexedUpdateColumns(g);
            && (n in {608, 640, 672, 704, 736} || 0 <= n <= 576)
            && (n == 736 ==> g in {415, 431, 447, 463, 479, 495, 511})
            && (n == 704 ==> g in {414, 430, 446, 462, 478, 494, 510})
            && (n == 672 ==> g <= 511) && (n == 640 ==> g <= 537) && (n == 608 ==> g <= 566)
            && (g in {479, 495, 511} ==> n == 736) && (g in {494, 510} ==> n == 704)
            && (g >= 580 ==> n <= 512) && (g >= 640 ==> n <= 448)
  {
  }

  /** Under the 16 GiB class every governed case of the authored generations fits, but for six. */
  lemma FitsExactly(family: Family, g: int)
    requires 400 <= g < 760
    ensures Fits(family, g, PROBE_16_GIB) <==> !TooLarge(family, g)
  {
    match family
    case Elementwise => ElementwiseFits(g);
    case Transpose => TransposeFits(g);
    case IndexedRead => IndexedReadFits(g);
    case IndexedUpdate => IndexedUpdateFits(g);
    case _ =>
  }

  /** Which authored designs the 16 GiB class admits: exactly those whose universe holds none of the six cases, the
      starts from 400 to 419 and from 564 on. */
  lemma DesignFitsExactly(universeStart: int)
    requires 400 <= universeStart <= 700
    ensures DesignFits(universeStart, PROBE_16_GIB) <==> universeStart < 420 || 564 <= universeStart
  {
    hide Fits;
    forall family, g | Within(universeStart, g)
      ensures Fits(family, g, PROBE_16_GIB) <==> !TooLarge(family, g)
    {
      FitsExactly(family, g);
    }
    if 420 <= universeStart < 564 {
      var family, g := if universeStart < 504 then IndexedUpdate else Transpose,
                       if universeStart < 480 then 479 else if universeStart < 504 then 511 else 563;
      assert Within(universeStart, g) && TooLarge(family, g);
    }
  }

  /** The 8 GiB class admits no authored design. */
  lemma SmallClassAdmitsNone(universeStart: int)
    requires 400 <= universeStart <= 700
    ensures !DesignFits(universeStart, PROBE_8_GIB)
  {
    var g := 458 + 60 * ((universeStart - 399) / 60);
    assert g in {458, 518, 578, 638, 698, 758};
    assert Within(universeStart, g) && !Fits(Transpose, g, PROBE_8_GIB);
  }

  /** Checks the governed cases of both roles, up to the first that does not fit. */
  method ValidateWorkingSets(universeStart: int, maximum: int) returns (ok: bool)
    ensures ok <==> DesignFits(universeStart, maximum)
  {
    hide Fits, WorkloadOf, ForFamily, FamilyCases;
    var development := Cases(Development, universeStart);
    var heldOut := Cases(HeldOutRole, universeStart);
    var cases := development + heldOut;
    for i := 0 to |cases|
      invariant forall j :: 0 <= j < i ==> Fits(cases[j].id.family, cases[j].globalIndex, maximum)
    {
      if !Fits(cases[i].id.family, cases[i].globalIndex, maximum) {
        ListedWithin(cases, universeStart, i);
        return false;
      }
    }
    forall family, g | Within(universeStart, g) ensures Fits(family, g, maximum) {
      var j := WithinListed(cases, universeStart, family, g);
    }
    return true;
  }

  lemma {:induction false} ForFamilyMembers(cases: seq<CaseSpec>, family: Family, c: CaseSpec)
    ensures c in ForFamily(cases, family) <==> c in cases && c.id.family == family
  {
    if cases != [] {
      ForFamilyMembers(cases[..|cases| - 1], family, c);
      assert cases == cases[..|cases| - 1] + [cases[|cases| - 1]];
    }
  }

  lemma ListedWithin(cases: seq<CaseSpec>, universeStart: int, i: nat)
    requires cases == FamilyCases(FAMILIES, Development, universeStart)
                      + FamilyCases(FAMILIES, HeldOutRole, universeStart)
    requires i < |cases|
    ensures Within(universeStart, cases[i].globalIndex)
  {
    hide FamilyCases, ForFamily, WorkloadOf, PlaceOf;
    var family := cases[i].id.family;
    BothRolesForFamily(family, universeStart);
    ForFamilyMembers(cases, family, cases[i]);
    var k :| 0 <= k < |WorkloadOf(family, universeStart)| && WorkloadOf(family, universeStart)[k] == cases[i];
    WorkloadCoversUniverse(family, universeStart, cases[i].globalIndex, k);
  }

  lemma WithinListed(cases: seq<CaseSpec>, universeStart: int, family: Family, g: int) returns (i: nat)
    requires cases == FamilyCases(FAMILIES, Development, universeStart)
                      + FamilyCases(FAMILIES, HeldOutRole, universeStart)
    requires Within(universeStart, g)
    ensures i < |cases| && cases[i].id.family == family && cases[i].globalIndex == g
  {
    hide FamilyCases, ForFamily, WorkloadOf, PlaceOf;
    var k := PlaceOf(universeStart, g);
    var c := WorkloadOf(family, universeStart)[k];
    WorkloadCoversUniverse(family, universeStart, g, k);
    BothRolesForFamily(family, universeStart);
    assert c in WorkloadOf(family, universeStart);
    ForFamilyMembers(cases, family, c);
    i :| 0 <= i < |cases| && cases[i] == c;
  }

  // ----- columns

  /** The widths of neighbouring cases: they cycle in steps of 32 from the least width to the greatest, starting over at
      the multiples of 16; a reduction doubles its width from 32 to 1024 and starts over at the multiples of 6. All stay
      within what the packaged candidates take. */
  lemma ColumnsCycle(family: Family, g: int)
    requires family in {Reduction, Softmax, CrossEntropy, IndexedRead}
    ensures var n, next, least := Shape(family, g).n, Shape(family, g + 1).n,
                                  match family case Reduction => 32 case IndexedRead => 256 case _ => 64;
            && (n == least <==> g % (if family == Reduction then 6 else 16) == 0)
            && (next != least ==> next == if family == Reduction then 2 * n else n + 32)
            && 1 <= n <= 1024
  {
    NextResidue(g, if family == Reduction then 6 else 16);
    if family == Reduction { WidthsDouble(g % 6); }
  }

  lemma NextResidue(g: int, n: int)
    requires n in {6, 16}
    ensures (g + 1) % n == if g % n == n - 1 then 0 else g % n + 1
  {
  }

  lemma WidthsDouble(k: nat)
    requires k < 6
    ensures var widths := [32, 64, 128, 256, 512, 1024];
            32 <= widths[k] <= 1024 && (widths[k] == 32 <==> k == 0) && (k < 5 ==> widths[k + 1] == 2 * widths[k])
  {
  }
}
