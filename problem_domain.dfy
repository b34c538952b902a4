/**
 * The antenna-placement problem: a chromosome is a bit string holding, for each
 * antenna, an x and a y coordinate of `bitsPerCoord` bits each, most significant
 * bit first. Decoding clamps each value to the map; fitness counts the clients
 * lying within the coverage radius of some decoded antenna.
 */
module ProblemDomain {
  import opened Results

  /** A gene. */
  type Bit = b: int | 0 <= b <= 1

  /** A demand point; the coordinates are the values read from the client file. */
  datatype Client = Client(identifier: string, x: real, y: real)

  /** An antenna position on the map. */
  type Coord = (int, int)

  /** Immutable problem configuration together with the fixed client list. */
  datatype Problem = Problem(
    clients: seq<Client>,
    numAntennas: nat,
    bitsPerCoord: nat,
    mapWidth: int,
    mapHeight: int,
    coverageRadius: real)

  datatype DecodeError =
    | ChromosomeLengthMismatch   // genes do not have the configured length
    | EmptyBitString             // an empty coordinate field cannot be parsed as a number

  /** Number of genes of every chromosome of the problem. */
  function ChromosomeLength(p: Problem): (n: nat)
    ensures p.numAntennas == 0 || p.bitsPerCoord == 0 ==> n == 0
    ensures p.numAntennas > 0 ==> n == YEnd(p, p.numAntennas - 1)
  {
    MulAssoc(p.numAntennas, p.bitsPerCoord, 2);
    if p.numAntennas == 0 then 0
    else
      MulSucc(p.numAntennas - 1, p.bitsPerCoord * 2);
      p.numAntennas * p.bitsPerCoord * 2
  }

  function Pow2(n: nat): (r: nat)
    ensures r >= 1
  {
    if n == 0 then 1 else 2 * Pow2(n - 1)
  }

  // ---------------------------------------------------------------------------
  // Bit strings as unsigned integers

  /** Unsigned value of `bits` read most significant bit first (v := 2 * v + bit, left to right). */
  function BinaryValue(bits: seq<Bit>): (v: nat)
    ensures v < Pow2(|bits|)
  {
    if |bits| == 0 then 0 else 2 * BinaryValue(bits[..|bits| - 1]) + bits[|bits| - 1]
  }

  /** Parses a non-empty bit string; the empty string has no numeric value. */
  function BitsToInt(bits: seq<Bit>): (r: Result<nat, DecodeError>)
    ensures r.Err? <==> |bits| == 0
    ensures r.Err? ==> r.error == EmptyBitString
    ensures r.Ok? ==> r.value < Pow2(|bits|)
  {
    if |bits| == 0 then Err(EmptyBitString) else Ok(BinaryValue(bits))
  }

  /** The `n`-bit most-significant-first representation of `v` (reduced modulo 2^n). */
  function ToBits(v: nat, n: nat): (bits: seq<Bit>)
    ensures |bits| == n
  {
    if n == 0 then [] else ToBits(v / 2, n - 1) + [v % 2]
  }

  lemma {:induction false} BinaryValueOfToBits(v: nat, n: nat)
    requires v < Pow2(n)
    ensures BinaryValue(ToBits(v, n)) == v
  {
    if n > 0 {
      var bits := ToBits(v, n);
      assert bits[..n - 1] == ToBits(v / 2, n - 1);
      BinaryValueOfToBits(v / 2, n - 1);
    }
  }

  lemma {:induction false} ToBitsOfBinaryValue(bits: seq<Bit>)
    ensures ToBits(BinaryValue(bits), |bits|) == bits
  {
    if |bits| > 0 {
      var init := bits[..|bits| - 1];
      ToBitsOfBinaryValue(init);
      assert bits == init + [bits[|bits| - 1]];
    }
  }

  lemma {:induction false} AllZerosValue(bits: seq<Bit>)
    requires forall i :: 0 <= i < |bits| ==> bits[i] == 0
    ensures BinaryValue(bits) == 0
  {
    if |bits| > 0 {
      AllZerosValue(bits[..|bits| - 1]);
    }
  }

  lemma {:induction false} AllOnesValue(bits: seq<Bit>)
    requires forall i :: 0 <= i < |bits| ==> bits[i] == 1
    ensures BinaryValue(bits) == Pow2(|bits|) - 1
  {
    if |bits| > 0 {
      AllOnesValue(bits[..|bits| - 1]);
    }
  }

  // ---------------------------------------------------------------------------
  // Decoding

  /** First gene of antenna `i`'s x field, of its y field, and one past its y field. */
  function XStart(p: Problem, i: nat): nat { i * (p.bitsPerCoord * 2) }
  function YStart(p: Problem, i: nat): nat { XStart(p, i) + p.bitsPerCoord }
  function YEnd(p: Problem, i: nat): nat { XStart(p, i) + p.bitsPerCoord * 2 }

  lemma FieldsInBounds(p: Problem, i: nat)
    requires i < p.numAntennas
    ensures XStart(p, i) <= YStart(p, i) <= YEnd(p, i) <= ChromosomeLength(p)
  {
    var w := p.bitsPerCoord * 2;
    MulAssoc(p.numAntennas, p.bitsPerCoord, 2);
    MulSucc(i, w);
    MulMonotone(i + 1, p.numAntennas, w);
  }

  lemma MulMonotone(a: nat, b: nat, c: nat)
    requires a <= b
    ensures a * c <= b * c
  {
  }

  lemma MulSucc(a: nat, c: nat)
    ensures (a + 1) * c == a * c + c
  {
  }

  lemma MulAssoc(a: nat, b: nat, c: nat)
    ensures a * b * c == a * (b * c)
  {
  }

  /** Position decoded for antenna `i`: both fields read MSB first, then clamped to the map. */
  function AntennaAt(p: Problem, genes: seq<Bit>, i: nat): (c: Coord)
    requires |genes| == ChromosomeLength(p) && i < p.numAntennas
    ensures (FieldsInBounds(p, i);
      var x, y := BinaryValue(genes[XStart(p, i)..YStart(p, i)]), BinaryValue(genes[YStart(p, i)..YEnd(p, i)]);
      && c.0 <= p.mapWidth && c.1 <= p.mapHeight
      && (c.0 == x || c.0 == p.mapWidth) && (c.1 == y || c.1 == p.mapHeight)
      && (x <= p.mapWidth ==> c.0 == x) && (y <= p.mapHeight ==> c.1 == y))
  {
    FieldsInBounds(p, i);
    (Min(BinaryValue(genes[XStart(p, i)..YStart(p, i)]), p.mapWidth),
     Min(BinaryValue(genes[YStart(p, i)..YEnd(p, i)]), p.mapHeight))
  }

  function Min(a: int, b: int): int { if a <= b then a else b }

  /** The decoding of `genes`, or the error raised for it. */
  function Decoded(p: Problem, genes: seq<Bit>): (r: Result<seq<Coord>, DecodeError>)
    ensures r == Err(ChromosomeLengthMismatch) <==> |genes| != ChromosomeLength(p)
    ensures r == Err(EmptyBitString) <==>
      (|genes| == ChromosomeLength(p) && p.numAntennas > 0 && p.bitsPerCoord == 0)
    ensures r.Ok? ==> (|r.value| == p.numAntennas &&
      forall i :: 0 <= i < p.numAntennas ==> r.value[i] == AntennaAt(p, genes, i))
  {
    if |genes| != ChromosomeLength(p) then Err(ChromosomeLengthMismatch)
    else if p.numAntennas > 0 && p.bitsPerCoord == 0 then Err(EmptyBitString)
    else Ok(seq(p.numAntennas, i requires 0 <= i < p.numAntennas => AntennaAt(p, genes, i)))
  }

  /** Builds the coordinate list antenna by antenna. */
  method Decode(p: Problem, genes: seq<Bit>) returns (r: Result<seq<Coord>, DecodeError>)
    ensures r == Decoded(p, genes)
  {
    if |genes| != ChromosomeLength(p) {
      return Err(ChromosomeLengthMismatch);
    }
    var coords: seq<Coord> := [];
    for i := 0 to p.numAntennas
      invariant |coords| == i
      invariant forall k :: 0 <= k < i ==> coords[k] == AntennaAt(p, genes, k)
      invariant i > 0 ==> p.bitsPerCoord > 0
    {
      FieldsInBounds(p, i);
      var start, mid, end := XStart(p, i), YStart(p, i), YEnd(p, i);
      var xVal := BitsToInt(genes[start..mid]);
      if xVal.Err? {
        return Err(xVal.error);
      }
      // both fields have the same width, so the y field parses whenever the x field does
      var yVal := BitsToInt(genes[mid..end]);
      coords := coords + [(Min(xVal.value, p.mapWidth), Min(yVal.value, p.mapHeight))];
    }
    assert coords == Decoded(p, genes).value;
    return Ok(coords);
  }

  /** Decoding yields one position per antenna, each within the map. */
  lemma DecodeInMap(p: Problem, genes: seq<Bit>)
    requires Decoded(p, genes).Ok?
    ensures |Decoded(p, genes).value| == p.numAntennas
    ensures forall i :: 0 <= i < p.numAntennas ==>
      var c := Decoded(p, genes).value[i];
      c.0 <= p.mapWidth && c.1 <= p.mapHeight &&
      (p.mapWidth >= 0 ==> 0 <= c.0) && (p.mapHeight >= 0 ==> 0 <= c.1)
  {
  }

  /** Decoding succeeds exactly for chromosomes of the configured length (with non-empty fields). */
  lemma DecodeSucceeds(p: Problem, genes: seq<Bit>)
    ensures Decoded(p, genes).Ok? <==>
      |genes| == ChromosomeLength(p) && (p.numAntennas == 0 || p.bitsPerCoord > 0)
  {
  }

  /** Encodes a list of non-negative positions, x then y for each, `b` bits per value. */
  ghost function Encode(cs: seq<Coord>, b: nat): (genes: seq<Bit>)
  {
    if |cs| == 0 then [] else Encode(cs[..|cs| - 1], b) + EncodeAntenna(cs[|cs| - 1], b)
  }

  /** One antenna's block: x then y, each in `b` bits. */
  ghost function EncodeAntenna(c: Coord, b: nat): (block: seq<Bit>)
    ensures |block| == b * 2
  {
    ToBits(Natural(c.0), b) + ToBits(Natural(c.1), b)
  }

  /** Negative coordinates never occur in a decoded layout; the encoder maps them to 0. */
  function Natural(x: int): nat { if x < 0 then 0 else x }

  /** Start of block `i` when every block is `w` genes long, by repeated addition. */
  function Offset(i: nat, w: nat): nat
  {
    if i == 0 then 0 else Offset(i - 1, w) + w
  }

  lemma {:induction false} OffsetIsProduct(i: nat, w: nat)
    ensures Offset(i, w) == i * w
  {
    if i > 0 {
      OffsetIsProduct(i - 1, w);
      MulSucc(i - 1, w);
    }
  }

  lemma {:induction false} OffsetMonotone(i: nat, j: nat, w: nat)
    requires i <= j
    ensures Offset(i, w) <= Offset(j, w)
    decreases j - i
  {
    if i < j {
      OffsetMonotone(i, j - 1, w);
    }
  }

  lemma {:induction false} EncodeLength(cs: seq<Coord>, b: nat)
    ensures |Encode(cs, b)| == Offset(|cs|, b * 2)
  {
    if |cs| > 0 {
      EncodeLength(cs[..|cs| - 1], b);
    }
  }

  /** Antenna `i`'s block occupies genes [i*2b, (i+1)*2b). */
  lemma {:induction false} EncodeBlock(cs: seq<Coord>, b: nat, i: nat)
    requires i < |cs|
    ensures Offset(i + 1, b * 2) <= |Encode(cs, b)|
    ensures Encode(cs, b)[Offset(i, b * 2)..Offset(i + 1, b * 2)] == EncodeAntenna(cs[i], b)
  {
    var n := |cs| - 1;
    var init := cs[..n];
    EncodeLength(init, b);
    if i < n {
      OffsetMonotone(i + 1, n, b * 2);
      EncodeBlock(init, b, i);
      assert init[i] == cs[i];
      SliceOfPrefix(Encode(init, b), EncodeAntenna(cs[n], b), Offset(i, b * 2), Offset(i + 1, b * 2));
    } else {
      SliceOfPrefix(Encode(init, b) + EncodeAntenna(cs[n], b), [], Offset(i, b * 2), Offset(i + 1, b * 2));
    }
  }

  lemma SliceOfPrefix<T>(x: seq<T>, y: seq<T>, lo: nat, hi: nat)
    requires lo <= hi <= |x|
    ensures (x + y)[lo..hi] == x[lo..hi]
  {
  }

  /** The two halves of a slice. */
  lemma SplitSlice<T>(e: seq<T>, lo: nat, mid: nat, hi: nat, x: seq<T>, y: seq<T>)
    requires lo <= mid <= hi <= |e| && e[lo..hi] == x + y && |x| == mid - lo
    ensures e[lo..mid] == x && e[mid..hi] == y
  {
    assert e[lo..mid] == e[lo..hi][..|x|];
    assert e[mid..hi] == e[lo..hi][|x|..];
  }

  /** Decoding inverts encoding for positions inside the map and representable in `bitsPerCoord` bits. */
  lemma DecodeEncode(p: Problem, cs: seq<Coord>)
    requires |cs| == p.numAntennas && (p.numAntennas == 0 || p.bitsPerCoord > 0)
    requires forall i :: 0 <= i < |cs| ==>
      0 <= cs[i].0 <= p.mapWidth && cs[i].0 < Pow2(p.bitsPerCoord) &&
      0 <= cs[i].1 <= p.mapHeight && cs[i].1 < Pow2(p.bitsPerCoord)
    ensures |Encode(cs, p.bitsPerCoord)| == ChromosomeLength(p)
    ensures Decoded(p, Encode(cs, p.bitsPerCoord)) == Ok(cs)
  {
    var b := p.bitsPerCoord;
    var genes := Encode(cs, b);
    EncodeLength(cs, b);
    OffsetIsProduct(|cs|, b * 2);
    MulAssoc(p.numAntennas, b, 2);
    var d := Decoded(p, genes);
    forall i | 0 <= i < |cs| ensures d.value[i] == cs[i] {
      DecodeEncodeAt(p, cs, i);
    }
    assert d.value == cs;
  }

  lemma DecodeEncodeAt(p: Problem, cs: seq<Coord>, i: nat)
    requires |cs| == p.numAntennas && i < |cs|
    requires 0 <= cs[i].0 <= p.mapWidth && cs[i].0 < Pow2(p.bitsPerCoord)
    requires 0 <= cs[i].1 <= p.mapHeight && cs[i].1 < Pow2(p.bitsPerCoord)
    requires |Encode(cs, p.bitsPerCoord)| == ChromosomeLength(p)
    ensures AntennaAt(p, Encode(cs, p.bitsPerCoord), i) == cs[i]
  {
    var b := p.bitsPerCoord;
    var genes := Encode(cs, b);
    EncodeBlock(cs, b, i);
    OffsetIsProduct(i, b * 2);
    OffsetIsProduct(i + 1, b * 2);
    MulSucc(i, b * 2);
    SplitSlice(genes, XStart(p, i), YStart(p, i), YEnd(p, i), ToBits(cs[i].0, b), ToBits(cs[i].1, b));
    var xs, ys := genes[XStart(p, i)..YStart(p, i)], genes[YStart(p, i)..YEnd(p, i)];
    BinaryValueOfToBits(cs[i].0, b);
    BinaryValueOfToBits(cs[i].1, b);
    assert AntennaAt(p, genes, i) == (Min(BinaryValue(xs), p.mapWidth), Min(BinaryValue(ys), p.mapHeight));
  }

  /** The all-zero chromosome puts every antenna at the origin. */
  lemma DecodeAllZeros(p: Problem, genes: seq<Bit>)
    requires |genes| == ChromosomeLength(p) && (p.numAntennas == 0 || p.bitsPerCoord > 0)
    requires p.mapWidth >= 0 && p.mapHeight >= 0
    requires forall i :: 0 <= i < |genes| ==> genes[i] == 0
    ensures Decoded(p, genes) == Ok(seq(p.numAntennas, i => (0, 0)))
  {
    var d := Decoded(p, genes).value;
    forall i | 0 <= i < p.numAntennas ensures d[i] == (0, 0) {
      FieldsInBounds(p, i);
      AllZerosValue(genes[XStart(p, i)..YStart(p, i)]);
      AllZerosValue(genes[YStart(p, i)..YEnd(p, i)]);
    }
    assert d == seq(p.numAntennas, i => (0, 0));
  }

  /** The all-one chromosome puts every antenna at the largest encodable value, clamped to the map. */
  lemma DecodeAllOnes(p: Problem, genes: seq<Bit>)
    requires |genes| == ChromosomeLength(p) && (p.numAntennas == 0 || p.bitsPerCoord > 0)
    requires forall i :: 0 <= i < |genes| ==> genes[i] == 1
    ensures Decoded(p, genes) == Ok(seq(p.numAntennas, i =>
      (Min(Pow2(p.bitsPerCoord) - 1, p.mapWidth), Min(Pow2(p.bitsPerCoord) - 1, p.mapHeight))))
  {
    var d := Decoded(p, genes).value;
    forall i | 0 <= i < p.numAntennas
      ensures d[i] == (Min(Pow2(p.bitsPerCoord) - 1, p.mapWidth), Min(Pow2(p.bitsPerCoord) - 1, p.mapHeight))
    {
      FieldsInBounds(p, i);
      AllOnesValue(genes[XStart(p, i)..YStart(p, i)]);
      AllOnesValue(genes[YStart(p, i)..YEnd(p, i)]);
    }
    assert d == seq(p.numAntennas, i =>
      (Min(Pow2(p.bitsPerCoord) - 1, p.mapWidth), Min(Pow2(p.bitsPerCoord) - 1, p.mapHeight)));
  }

  // ---------------------------------------------------------------------------
  // Coverage and fitness

  /** Euclidean distance from `c` to `a` is at most `r`, compared through squares. */
  predicate Covers(c: Client, a: Coord, r: real)
    ensures Covers(c, a, r) ==>
      r >= 0.0 && -r <= c.x - a.0 as real <= r && -r <= c.y - a.1 as real <= r
    ensures c.x == a.0 as real && c.y == a.1 as real ==> (Covers(c, a, r) <==> r >= 0.0)
  {
    SquareWithin(c.x - a.0 as real, c.y - a.1 as real, r);
    SquareWithin(c.y - a.1 as real, c.x - a.0 as real, r);
    r >= 0.0 && Dist2(c, a) <= r * r
  }

  /** A coordinate difference whose square fits under r * r, with room for another square, is within r. */
  lemma SquareWithin(x: real, y: real, r: real)
    ensures r >= 0.0 && x * x + y * y <= r * r ==> -r <= x <= r
  {
    assert y * y >= 0.0;
    SquareBelow(r, x);
    SquareBelow(r, -x);
  }

  /** Squaring is strictly increasing on non-negative reals. */
  lemma SquareBelow(a: real, b: real)
    ensures 0.0 <= a < b ==> a * a < b * b
  {
    if 0.0 <= a < b {
      assert a * (b - a) >= 0.0;
      assert b * (b - a) > 0.0;
    }
  }

  /** A larger radius covers everything a smaller one does. */
  lemma CoverageGrowsWithRadius(c: Client, a: Coord, r1: real, r2: real)
    requires 0.0 <= r1 <= r2
    ensures Covers(c, a, r1) ==> Covers(c, a, r2)
  {
    SquareBelow(r1, r2);
  }

  /** Some antenna of `antennas` covers `c`; no antenna or a negative radius covers nobody. */
  predicate IsCovered(c: Client, antennas: seq<Coord>, r: real)
    ensures IsCovered(c, antennas, r) ==> |antennas| > 0 && r >= 0.0
  {
    exists k :: 0 <= k < |antennas| && Covers(c, antennas[k], r)
  }

  /** Number of entries of `clients` covered by some antenna. */
  function CoveredCount(clients: seq<Client>, antennas: seq<Coord>, r: real): (n: nat)
    ensures n <= |clients|
  {
    if |clients| == 0 then 0
    else
      CoveredCount(clients[..|clients| - 1], antennas, r)
      + (if IsCovered(clients[|clients| - 1], antennas, r) then 1 else 0)
  }

  /** Indices of the covered clients. */
  ghost function CoveredClients(clients: seq<Client>, antennas: seq<Coord>, r: real): set<nat>
  {
    set i: nat | i < |clients| && IsCovered(clients[i], antennas, r)
  }

  /** Fitness of a chromosome: the number of covered clients, or the decoding error. */
  function CalculateFitness(p: Problem, genes: seq<Bit>): (r: Result<nat, DecodeError>)
    ensures r.Ok? <==> Decoded(p, genes).Ok?
    ensures r.Err? ==> r.error == Decoded(p, genes).error
    ensures r.Ok? ==> r.value <= |p.clients|
  {
    match Decoded(p, genes)
    case Err(e) => Err(e)
    case Ok(coords) => Ok(CoveredCount(p.clients, coords, p.coverageRadius))
  }

  /** The count is the number of distinct covered entries: each client counts at most once. */
  lemma {:induction false} CoveredCountIsSetSize(clients: seq<Client>, antennas: seq<Coord>, r: real)
    ensures CoveredCount(clients, antennas, r) == |CoveredClients(clients, antennas, r)|
  {
    if |clients| > 0 {
      var n := |clients| - 1;
      var init := clients[..n];
      CoveredCountIsSetSize(init, antennas, r);
      var s0 := CoveredClients(init, antennas, r);
      var s := CoveredClients(clients, antennas, r);
      forall i: nat | i < n ensures i in s <==> i in s0 {
        assert init[i] == clients[i];
      }
      if IsCovered(clients[n], antennas, r) {
        assert s == s0 + {n};
        assert n !in s0;
      } else {
        assert s == s0;
      }
    }
  }

  /** All clients are counted exactly when every one is covered; none exactly when none is. */
  lemma {:induction false} CoveredCountExtremes(clients: seq<Client>, antennas: seq<Coord>, r: real)
    ensures CoveredCount(clients, antennas, r) == |clients| <==>
      forall i :: 0 <= i < |clients| ==> IsCovered(clients[i], antennas, r)
    ensures CoveredCount(clients, antennas, r) == 0 <==>
      forall i :: 0 <= i < |clients| ==> !IsCovered(clients[i], antennas, r)
  {
    if |clients| > 0 {
      var n := |clients| - 1;
      var init := clients[..n];
      CoveredCountExtremes(init, antennas, r);
      assert forall i :: 0 <= i < n ==> init[i] == clients[i];
    }
  }

  /** With no antennas, or no clients, the fitness is zero. */
  lemma FitnessOfEmptyProblem(p: Problem, genes: seq<Bit>)
    requires p.numAntennas == 0 || |p.clients| == 0
    requires Decoded(p, genes).Ok?
    ensures CalculateFitness(p, genes) == Ok(0)
  {
    CoveredCountExtremes(p.clients, Decoded(p, genes).value, p.coverageRadius);
  }

  /** Appending a client raises the fitness by one if it is covered, else leaves it unchanged. */
  lemma AppendClient(p: Problem, c: Client, genes: seq<Bit>)
    requires Decoded(p, genes).Ok?
    ensures var q := p.(clients := p.clients + [c]);
      CalculateFitness(q, genes).Ok? &&
      CalculateFitness(q, genes).value ==
        CalculateFitness(p, genes).value
        + (if IsCovered(c, Decoded(p, genes).value, p.coverageRadius) then 1 else 0)
  {
    var q := p.(clients := p.clients + [c]);
    DecodeIgnoresClients(p, q, genes);
    assert q.clients[..|p.clients|] == p.clients;
  }

  /** Decoding depends on the configuration only, not on the client list. */
  lemma DecodeIgnoresClients(p: Problem, q: Problem, genes: seq<Bit>)
    requires q == p.(clients := q.clients)
    ensures Decoded(q, genes) == Decoded(p, genes)
  {
    if Decoded(p, genes).Ok? {
      assert Decoded(q, genes).value == Decoded(p, genes).value;
    }
  }

  /** Coverage is inclusive at the radius and exclusive beyond it. */
  lemma CoverageBoundary(c: Client, antennas: seq<Coord>, r: real)
    requires r >= 0.0
    ensures (exists k :: 0 <= k < |antennas| && Dist2(c, antennas[k]) == r * r) ==> IsCovered(c, antennas, r)
    ensures (forall k :: 0 <= k < |antennas| ==> Dist2(c, antennas[k]) > r * r) ==> !IsCovered(c, antennas, r)
  {
  }

  /** Adding antennas, before or after the existing ones, never uncovers a client. */
  lemma {:induction false} MoreAntennasCover(c: Client, antennas: seq<Coord>, extra: seq<Coord>, r: real)
    ensures IsCovered(c, antennas, r) ==> IsCovered(c, antennas + extra, r) && IsCovered(c, extra + antennas, r)
  {
    if IsCovered(c, antennas, r) {
      var k :| 0 <= k < |antennas| && Covers(c, antennas[k], r);
      assert (antennas + extra)[k] == antennas[k];
      assert (extra + antennas)[|extra| + k] == antennas[k];
    }
  }

  /** Squared distance between a client and an antenna. */
  function Dist2(c: Client, a: Coord): real
  {
    (c.x - a.0 as real) * (c.x - a.0 as real) + (c.y - a.1 as real) * (c.y - a.1 as real)
  }
}
