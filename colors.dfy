/**
 * Idea colours and the bounded, most-recent-first colour palette that biases
 * the colour of every emitted particle.
 */
module Colors {
  import opened Ideas

  /** A colour as the sketch builds it with p.color(red, green, blue). */
  datatype Color = Rgb(red: real, green: real, blue: real)

  /** p.color(255): the colour used when the palette is empty. */
  const WHITE: Color := Rgb(255.0, 255.0, 255.0)

  /** The palette never holds more than this many colours. */
  const MAX_PALETTE_SIZE: nat := 4

  /**
   * p.map(component, -0.1, 0.1, 0, 255): the linear map of [-0.1, 0.1] onto
   * [0, 255] (p.map does not clamp, so values outside extrapolate).
   */
  function Channel(component: real): (level: real)
    ensures component == -0.1 ==> level == 0.0
    ensures component == 0.1 ==> level == 255.0
    ensures -0.1 <= component <= 0.1 ==> 0.0 <= level <= 255.0
  {
    (component - (-0.1)) / (0.1 - (-0.1)) * (255.0 - 0.0) + 0.0
  }

  /** The colour of an idea: components 10, 150 and 300 of its embedding. */
  function ColorOf(v: Embedding): (c: Color)
  {
    Rgb(Channel(v[10]), Channel(v[150]), Channel(v[300]))
  }

  /**
   * An idea whose colour components lie in [-0.1, 0.1] gets a colour with
   * every channel in [0, 255]; the zero vector is the mid grey.
   */
  lemma ColorOfInRange(v: Embedding)
    ensures -0.1 <= v[10] <= 0.1 ==> 0.0 <= ColorOf(v).red <= 255.0
    ensures -0.1 <= v[150] <= 0.1 ==> 0.0 <= ColorOf(v).green <= 255.0
    ensures -0.1 <= v[300] <= 0.1 ==> 0.0 <= ColorOf(v).blue <= 255.0
    ensures v[10] == 0.0 && v[150] == 0.0 && v[300] == 0.0 ==> ColorOf(v) == Rgb(127.5, 127.5, 127.5)
  {
  }

  /** p.lerpColor(from, to, amount): channel-wise linear interpolation. */
  function Blend(from: Color, to: Color, amount: real): (c: Color)
    ensures amount == 0.0 ==> c == from
    ensures amount == 1.0 ==> c == to
    ensures from == to ==> c == from
  {
    Rgb(from.red + (to.red - from.red) * amount,
        from.green + (to.green - from.green) * amount,
        from.blue + (to.blue - from.blue) * amount)
  }

  // ---------------------------------------------------------------------
  // The palette

  /**
   * `colorPalette.unshift(c)` followed by `if (length > MAX_PALETTE_SIZE) pop()`:
   * the new colour goes to the front, the previous entries keep their order
   * behind it, and the last (oldest) one is dropped on overflow.
   */
  function AddColor(palette: seq<Color>, c: Color): (r: seq<Color>)
    ensures |r| == if |palette| + 1 > MAX_PALETTE_SIZE then |palette| else |palette| + 1
    ensures r[0] == c
    ensures r[1..] == palette[..|r| - 1]
    ensures |palette| <= MAX_PALETTE_SIZE ==> |r| <= MAX_PALETTE_SIZE
  {
    var grown := [c] + palette;
    if |grown| > MAX_PALETTE_SIZE then grown[..|grown| - 1] else grown
  }

  /** The colours of a history, newest first. */
  function Reversed(s: seq<Color>): (r: seq<Color>)
    ensures |r| == |s|
  {
    if s == [] then [] else [s[|s| - 1]] + Reversed(s[..|s| - 1])
  }

  /**
   * Reference definition of the palette: the MAX_PALETTE_SIZE most recent
   * colours of every colour ever added, newest first.
   */
  function RecentFirst(history: seq<Color>): seq<Color>
  {
    var newest := Reversed(history);
    if |newest| <= MAX_PALETTE_SIZE then newest else newest[..MAX_PALETTE_SIZE]
  }

  lemma {:induction false} ReversedAt(s: seq<Color>, k: nat)
    requires k < |s|
    ensures Reversed(s)[k] == s[|s| - 1 - k]
  {
    if k > 0 {
      ReversedAt(s[..|s| - 1], k - 1);
    }
  }

  /** The palette of a history is bounded and starts with the newest colour. */
  lemma RecentFirstShape(history: seq<Color>)
    ensures |RecentFirst(history)| <= MAX_PALETTE_SIZE
    ensures |RecentFirst(history)| == if |history| < MAX_PALETTE_SIZE then |history| else MAX_PALETTE_SIZE
    ensures history != [] ==> RecentFirst(history)[0] == history[|history| - 1]
  {
    if history != [] {
      ReversedAt(history, 0);
    }
  }

  /** The palette of the spawn: exactly the initial colour. */
  lemma RecentFirstSingle(c: Color)
    ensures RecentFirst([c]) == [c]
  {
    assert [c][..0] == [];
  }

  /**
   * Adding a colour to the palette of a history gives the palette of the
   * history extended by that colour: AddColor keeps the palette equal to its
   * reference definition.
   */
  lemma {:induction false} AddColorKeepsRecentFirst(history: seq<Color>, c: Color)
    ensures AddColor(RecentFirst(history), c) == RecentFirst(history + [c])
  {
    var h := history + [c];
    assert h[..|h| - 1] == history;
    assert Reversed(h) == [c] + Reversed(history);
    var newest := Reversed(history);
    if |newest| <= MAX_PALETTE_SIZE {
      assert RecentFirst(history) == newest;
    } else {
      assert RecentFirst(history) == newest[..MAX_PALETTE_SIZE];
      assert ([c] + newest[..MAX_PALETTE_SIZE])[..MAX_PALETTE_SIZE] == ([c] + newest)[..MAX_PALETTE_SIZE];
    }
  }

  // ---------------------------------------------------------------------
  // Palette sampling

  /** p.floor of a value drawn by p.random(n). */
  function Index(draw: real): int
  {
    draw.Floor
  }

  /**
   * What the sketch needs of the values p.random(n) returns to getMixedColor,
   * which draws only when there are two colours or more: each lies in
   * [0, n), and some retry eventually differs from the first pick.
   */
  ghost predicate FairPicks(pick: nat -> real, n: nat)
  {
    n >= 2 ==>
      && (forall k: nat :: 0.0 <= pick(k) < n as real)
      && (exists k: nat :: k >= 1 && Index(pick(k)) != Index(pick(0)))
  }

  /** `c` is a colour getMixedColor may return for this palette and blend amount. */
  ghost predicate IsMixOf(palette: seq<Color>, c: Color, amount: real)
  {
    if |palette| == 0 then c == WHITE
    else if |palette| == 1 then c == palette[0]
    else exists i, j :: 0 <= i < |palette| && 0 <= j < |palette| && i != j && c == Blend(palette[i], palette[j], amount)
  }

  /**
   * getMixedColor: white for an empty palette, the only colour of a
   * one-colour palette, and otherwise a blend of two distinct palette
   * entries. `pick(0)` is the first index draw, `pick(1)`, `pick(2)`, ... are
   * the retries of the `while (index2 === index1)` loop, `amount` is
   * p.random(0.2, 0.8). `i1`, `i2` are the chosen indices and `retries` the
   * number of draws for the second one.
   */
  method MixedColor(palette: seq<Color>, pick: nat -> real, amount: real)
    returns (c: Color, ghost i1: int, ghost i2: int, ghost retries: nat)
    requires FairPicks(pick, |palette|)
    ensures IsMixOf(palette, c, amount)
    ensures |palette| >= 2 ==>
      && 0 <= i1 < |palette| && 0 <= i2 < |palette| && i1 != i2
      && i1 == Index(pick(0)) && retries >= 1 && i2 == Index(pick(retries))
      && (forall k: nat :: 1 <= k < retries ==> Index(pick(k)) == i1)
      && c == Blend(palette[i1], palette[i2], amount)
  {
    if |palette| == 0 {
      return WHITE, 0, 0, 0;
    }
    if |palette| == 1 {
      return palette[0], 0, 0, 0;
    }
    var index1 := Index(pick(0));
    ghost var bound: nat :| bound >= 1 && Index(pick(bound)) != index1;
    var k: nat := 1;
    var index2 := Index(pick(1));
    while index2 == index1
      invariant 1 <= k <= bound
      invariant index2 == Index(pick(k))
      invariant forall j: nat :: 1 <= j < k ==> Index(pick(j)) == index1
      decreases bound - k
    {
      k := k + 1;
      index2 := Index(pick(k));
    }
    assert 0.0 <= pick(0) < |palette| as real && 0.0 <= pick(k) < |palette| as real;
    c := Blend(palette[index1], palette[index2], amount);
    i1, i2, retries := index1, index2, k;
  }
}
