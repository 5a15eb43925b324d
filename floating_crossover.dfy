/**
  Uniform crossover of random keys (src/Crossover/FloatingPointUniformCrossover.java): gene i
  of the two children is gene i of the two parents, in the parents' order or swapped, as one
  draw per gene decides.
*/
module FloatingUniformCrossover {
  import opened Common
  import opened FloatingChromosomes
  import opened Genotypes

  /** The two children: position i keeps the parents' order when alphas[i] >= 0.5. */
  function UniformChildren(g1: seq<real>, g2: seq<real>, alphas: seq<Draw>): (c: (seq<real>, seq<real>))
    requires |g1| == |g2| <= |alphas|
    ensures |c.0| == |c.1| == |g1|
    ensures forall i :: 0 <= i < |g1| && alphas[i] >= 0.5 ==> c.0[i] == g1[i] && c.1[i] == g2[i]
    ensures forall i :: 0 <= i < |g1| && alphas[i] < 0.5 ==> c.0[i] == g2[i] && c.1[i] == g1[i]
  {
    if |g1| == 0 then ([], [])
    else
      var rest := UniformChildren(g1[..|g1| - 1], g2[..|g1| - 1], alphas);
      var i := |g1| - 1;
      if alphas[i] >= 0.5 then (rest.0 + [g1[i]], rest.1 + [g2[i]])
      else (rest.0 + [g2[i]], rest.1 + [g1[i]])
  }

  /** No gene is lost or made up: the children hold, between them, exactly the parents' genes. */
  lemma {:induction false} UniformKeepsGenes(g1: seq<real>, g2: seq<real>, alphas: seq<Draw>)
    requires |g1| == |g2| <= |alphas|
    ensures multiset(UniformChildren(g1, g2, alphas).0) + multiset(UniformChildren(g1, g2, alphas).1)
         == multiset(g1) + multiset(g2)
  {
    if |g1| > 0 {
      var i := |g1| - 1;
      UniformKeepsGenes(g1[..i], g2[..i], alphas);
      var rest := UniformChildren(g1[..i], g2[..i], alphas);
      var c := UniformChildren(g1, g2, alphas);
      LastSplit(g1);
      LastSplit(g2);
      if alphas[i] >= 0.5 {
        assert c == (rest.0 + [g1[i]], rest.1 + [g2[i]]);
      } else {
        assert c == (rest.0 + [g2[i]], rest.1 + [g1[i]]);
      }
      AppendBoth(rest.0, rest.1, g1[i], g2[i]);
    }
  }

  lemma LastSplit(s: seq<real>)
    requires |s| > 0
    ensures multiset(s) == multiset(s[..|s| - 1]) + multiset{s[|s| - 1]}
  {
    assert s == s[..|s| - 1] + [s[|s| - 1]];
  }

  lemma AppendBoth(a: seq<real>, b: seq<real>, x: real, y: real)
    ensures multiset(a + [x]) + multiset(b + [y]) == multiset(a) + multiset(b) + multiset{x} + multiset{y}
    ensures multiset(a + [y]) + multiset(b + [x]) == multiset(a) + multiset(b) + multiset{x} + multiset{y}
  {
  }

  /** Children of parents whose keys lie in [0, 1] have keys in [0, 1]. */
  lemma UniformKeepsUnitInterval(g1: seq<real>, g2: seq<real>, alphas: seq<Draw>)
    requires |g1| == |g2| <= |alphas|
    requires KeysInUnitInterval(g1) && KeysInUnitInterval(g2)
    ensures KeysInUnitInterval(UniformChildren(g1, g2, alphas).0)
    ensures KeysInUnitInterval(UniformChildren(g1, g2, alphas).1)
  {
  }

  /**
    `crossover(parent1, parent2, p)`: both parents must be random-key chromosomes; when the
    draw exceeds p the children are copies of the parents; otherwise the parents must have the
    same number of genes, and each position takes one draw.
  */
  method Crossover(parent1: Genotype, parent2: Genotype, probability: real, draw: Draw, alphas: seq<Draw>)
    returns (r: Result<(Genotype, Genotype)>)
    requires parent1.FloatingGenes? && parent2.FloatingGenes? ==> |alphas| >= |parent1.keys|
    ensures !(parent1.FloatingGenes? && parent2.FloatingGenes?) ==> r == Err(IllegalArgument("FloatingPointCrossover only works with FloatingPointChromosome"))
    ensures parent1.FloatingGenes? && parent2.FloatingGenes? && draw > probability ==> r == Ok((parent1, parent2))
    ensures parent1.FloatingGenes? && parent2.FloatingGenes? && draw <= probability && |parent1.keys| != |parent2.keys|
      ==> r == Err(IllegalArgument("Parents must have same gene length"))
    ensures parent1.FloatingGenes? && parent2.FloatingGenes? && draw <= probability && |parent1.keys| == |parent2.keys|
      ==> r == Ok((FloatingGenes(UniformChildren(parent1.keys, parent2.keys, alphas).0),
                   FloatingGenes(UniformChildren(parent1.keys, parent2.keys, alphas).1)))
  {
    if !parent1.FloatingGenes? || !parent2.FloatingGenes? {
      return Err(IllegalArgument("FloatingPointCrossover only works with FloatingPointChromosome"));
    }
    if draw > probability {
      return Ok((parent1, parent2));
    }
    var g1 := parent1.keys;
    var g2 := parent2.keys;
    if |g1| != |g2| {
      return Err(IllegalArgument("Parents must have same gene length"));
    }
    var c1: seq<real> := [];
    var c2: seq<real> := [];
    var i := 0;
    while i < |g1|
      invariant 0 <= i <= |g1|
      invariant (c1, c2) == UniformChildren(g1[..i], g2[..i], alphas)
    {
      assert g1[..i + 1][..i] == g1[..i] && g2[..i + 1][..i] == g2[..i];
      if alphas[i] >= 0.5 {
        c1 := c1 + [g1[i]];
        c2 := c2 + [g2[i]];
      } else {
        c1 := c1 + [g2[i]];
        c2 := c2 + [g1[i]];
      }
      i := i + 1;
    }
    assert g1[..i] == g1 && g2[..i] == g2;
    r := Ok((FloatingGenes(c1), FloatingGenes(c2)));
  }
}

/**
  Arithmetic (blend) crossover of random keys (src/Crossover/FloatingPointCrossover.java):
  with one draw alpha per gene, the first child takes alpha of the first parent's gene and
  1 - alpha of the second's, the second child the other way round.
*/
module FloatingBlendCrossover {
  import opened Common
  import opened FloatingChromosomes
  import opened Genotypes

  /** `alpha * x + (1 - alpha) * y`. */
  function Blend(alpha: real, x: real, y: real): (v: real)
    ensures x <= y && 0.0 <= alpha <= 1.0 ==> x <= v <= y
    ensures y <= x && 0.0 <= alpha <= 1.0 ==> y <= v <= x
  {
    ScaleWithin(alpha, x - y);
    ScaleWithin(alpha, y - x);
    assert alpha * x + (1.0 - alpha) * y == y + alpha * (x - y) == x + (1.0 - alpha) * (y - x);
    assert 0.0 <= alpha <= 1.0 ==> 0.0 <= 1.0 - alpha <= 1.0;
    ScaleWithin(1.0 - alpha, x - y);
    ScaleWithin(1.0 - alpha, y - x);
    alpha * x + (1.0 - alpha) * y
  }

  /** The two children: both blends of the parents' genes, with one draw per position. */
  function BlendChildren(g1: seq<real>, g2: seq<real>, alphas: seq<Draw>): (c: (seq<real>, seq<real>))
    requires |g1| == |g2| <= |alphas|
    ensures |c.0| == |c.1| == |g1|
    ensures forall i :: 0 <= i < |g1| ==> c.0[i] == Blend(alphas[i], g1[i], g2[i]) && c.1[i] == Blend(alphas[i], g2[i], g1[i])
  {
    if |g1| == 0 then ([], [])
    else
      var rest := BlendChildren(g1[..|g1| - 1], g2[..|g1| - 1], alphas);
      var i := |g1| - 1;
      (rest.0 + [Blend(alphas[i], g1[i], g2[i])], rest.1 + [Blend(alphas[i], g2[i], g1[i])])
  }

  /** Blending conserves each position's total: the children's genes sum to the parents'. */
  lemma BlendKeepsSum(g1: seq<real>, g2: seq<real>, alphas: seq<Draw>, i: nat)
    requires |g1| == |g2| <= |alphas| && i < |g1|
    ensures BlendChildren(g1, g2, alphas).0[i] + BlendChildren(g1, g2, alphas).1[i] == g1[i] + g2[i]
  {
    var a := alphas[i];
    assert a * g1[i] + (1.0 - a) * g2[i] + a * g2[i] + (1.0 - a) * g1[i]
        == (a + (1.0 - a)) * g1[i] + (a + (1.0 - a)) * g2[i];
  }

  /** Each child gene lies between the two parent genes at its position. */
  lemma BlendBetweenParents(g1: seq<real>, g2: seq<real>, alphas: seq<Draw>, i: nat)
    requires |g1| == |g2| <= |alphas| && i < |g1|
    ensures var lo := if g1[i] <= g2[i] then g1[i] else g2[i];
            var hi := if g1[i] <= g2[i] then g2[i] else g1[i];
            lo <= BlendChildren(g1, g2, alphas).0[i] <= hi && lo <= BlendChildren(g1, g2, alphas).1[i] <= hi
  {
  }

  /** Blends of keys in [0, 1] are keys in [0, 1]. */
  lemma BlendKeepsUnitInterval(g1: seq<real>, g2: seq<real>, alphas: seq<Draw>)
    requires |g1| == |g2| <= |alphas|
    requires KeysInUnitInterval(g1) && KeysInUnitInterval(g2)
    ensures KeysInUnitInterval(BlendChildren(g1, g2, alphas).0)
    ensures KeysInUnitInterval(BlendChildren(g1, g2, alphas).1)
  {
    var c := BlendChildren(g1, g2, alphas);
    forall i | 0 <= i < |g1| ensures 0.0 <= c.0[i] <= 1.0 && 0.0 <= c.1[i] <= 1.0 {
      BlendBetweenParents(g1, g2, alphas, i);
    }
  }

  /**
    `crossover(parent1, parent2, p)`: the same checks as the uniform crossover, then one draw
    alpha per position and two blended genes.
  */
  method Crossover(parent1: Genotype, parent2: Genotype, probability: real, draw: Draw, alphas: seq<Draw>)
    returns (r: Result<(Genotype, Genotype)>)
    requires parent1.FloatingGenes? && parent2.FloatingGenes? ==> |alphas| >= |parent1.keys|
    ensures !(parent1.FloatingGenes? && parent2.FloatingGenes?) ==> r == Err(IllegalArgument("FloatingPointCrossover only works with FloatingPointChromosome"))
    ensures parent1.FloatingGenes? && parent2.FloatingGenes? && draw > probability ==> r == Ok((parent1, parent2))
    ensures parent1.FloatingGenes? && parent2.FloatingGenes? && draw <= probability && |parent1.keys| != |parent2.keys|
      ==> r == Err(IllegalArgument("Parents must have same gene length"))
    ensures parent1.FloatingGenes? && parent2.FloatingGenes? && draw <= probability && |parent1.keys| == |parent2.keys|
      ==> r == Ok((FloatingGenes(BlendChildren(parent1.keys, parent2.keys, alphas).0),
                   FloatingGenes(BlendChildren(parent1.keys, parent2.keys, alphas).1)))
  {
    if !parent1.FloatingGenes? || !parent2.FloatingGenes? {
      return Err(IllegalArgument("FloatingPointCrossover only works with FloatingPointChromosome"));
    }
    if draw > probability {
      return Ok((parent1, parent2));
    }
    var g1 := parent1.keys;
    var g2 := parent2.keys;
    if |g1| != |g2| {
      return Err(IllegalArgument("Parents must have same gene length"));
    }
    var c1: seq<real> := [];
    var c2: seq<real> := [];
    var i := 0;
    while i < |g1|
      invariant 0 <= i <= |g1|
      invariant (c1, c2) == BlendChildren(g1[..i], g2[..i], alphas)
    {
      assert g1[..i + 1][..i] == g1[..i] && g2[..i + 1][..i] == g2[..i];
      var alpha := alphas[i];
      var v1 := alpha * g1[i] + (1.0 - alpha) * g2[i];
      var v2 := alpha * g2[i] + (1.0 - alpha) * g1[i];
      assert v1 == Blend(alpha, g1[i], g2[i]) && v2 == Blend(alpha, g2[i], g1[i]);
      c1 := c1 + [v1];
      c2 := c2 + [v2];
      i := i + 1;
    }
    assert g1[..i] == g1 && g2[..i] == g2;
    r := Ok((FloatingGenes(c1), FloatingGenes(c2)));
  }
}
