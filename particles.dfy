/** The particle effects container (class ParticleSystem). */
module Particles {

  datatype Particle = Particle(x: real, y: real, vx: real, vy: real, size: real, color: string, life: real, maxLife: real)

  /**
   * The random numbers one particle consumes: the cosine and sine of its
   * angle (itself one Math.random() value), then four more Math.random()
   * values in [0, 1): one speed factor for each axis, then size and life.
   */
  datatype Draw = Draw(cos: real, sin: real, speedUnitX: real, speedUnitY: real, sizeUnit: real, lifeUnit: real)

  /** Random.between(lo, hi) for a given Math.random() value u. */
  function Between(lo: real, hi: real, u: real): real
  {
    u * (hi - lo) + lo
  }

  lemma ProductBounds(u: real, span: real, p: real)
    requires p == u * span && 0.0 <= u < 1.0 && span > 0.0
    ensures 0.0 <= p < span
  {
  }

  /** Random.between stays in [lo, hi). */
  lemma BetweenBounds(lo: real, hi: real, u: real)
    requires lo < hi && 0.0 <= u < 1.0
    ensures lo <= Between(lo, hi, u) < hi
  {
    ProductBounds(u, hi - lo, u * (hi - lo));
  }

  /** A particle's starting life lies in [0.7, 1.3) times the lifetime. */
  lemma {:induction false} InitialLifeBounds(lifetime: real, u: real)
    requires lifetime > 0.0 && 0.0 <= u < 1.0
    ensures lifetime * 0.7 <= Between(lifetime * 0.7, lifetime * 1.3, u) < lifetime * 1.3
  {
    BetweenBounds(lifetime * 0.7, lifetime * 1.3, u);
  }

  /**
   * createParticles' particle for the draws d: at (x, y), moving along the
   * angle with a separate speed factor on each axis, with a random size and
   * life around the given ones.
   */
  function Spawn(x: real, y: real, color: string, speed: real, size: real, lifetime: real, d: Draw): Particle
  {
    Particle(x, y,
             d.cos * Between(0.5, 1.0, d.speedUnitX) * speed,
             d.sin * Between(0.5, 1.0, d.speedUnitY) * speed,
             Between(size * 0.5, size * 1.5, d.sizeUnit),
             color,
             Between(lifetime * 0.7, lifetime * 1.3, d.lifeUnit),
             lifetime)
  }

  /**
   * What a fresh particle looks like for draws in [0, 1): at the origin,
   * each axis's speed factor in [0.5, 1) and drawn on its own, size in
   * [0.5, 1.5) times the given size, life in [0.7, 1.3) times the lifetime,
   * and maxLife the lifetime itself.
   */
  lemma SpawnRanges(x: real, y: real, color: string, speed: real, size: real, lifetime: real, d: Draw)
    requires size > 0.0 && lifetime > 0.0
    requires 0.0 <= d.speedUnitX < 1.0 && 0.0 <= d.speedUnitY < 1.0 && 0.0 <= d.sizeUnit < 1.0 && 0.0 <= d.lifeUnit < 1.0
    ensures var p := Spawn(x, y, color, speed, size, lifetime, d);
      var fx := Between(0.5, 1.0, d.speedUnitX);
      var fy := Between(0.5, 1.0, d.speedUnitY);
      p.x == x && p.y == y && p.color == color && p.maxLife == lifetime &&
      0.5 <= fx < 1.0 && p.vx == d.cos * fx * speed &&
      0.5 <= fy < 1.0 && p.vy == d.sin * fy * speed &&
      size * 0.5 <= p.size < size * 1.5 &&
      lifetime * 0.7 <= p.life < lifetime * 1.3
  {
    BetweenBounds(0.5, 1.0, d.speedUnitX);
    BetweenBounds(0.5, 1.0, d.speedUnitY);
    BetweenBounds(size * 0.5, size * 1.5, d.sizeUnit);
    InitialLifeBounds(lifetime, d.lifeUnit);
  }

  /** One tick of a particle: move by its velocity and lose one unit of life. */
  function Advance(p: Particle): (q: Particle)
    ensures q.life == p.life - 1.0 && q.x == p.x + p.vx && q.y == p.y + p.vy
    ensures q.vx == p.vx && q.vy == p.vy && q.maxLife == p.maxLife && q.color == p.color && q.size == p.size
  {
    p.(x := p.x + p.vx, y := p.y + p.vy, life := p.life - 1.0)
  }

  /** The particles after one tick: advanced, and only those still alive, in order. */
  function Evolve(s: seq<Particle>): seq<Particle>
  {
    if s == [] then []
    else (if Advance(s[0]).life > 0.0 then [Advance(s[0])] else []) + Evolve(s[1..])
  }

  /** Evolve works particle by particle and keeps the relative order. */
  lemma {:induction false} EvolveAppend(a: seq<Particle>, b: seq<Particle>)
    ensures Evolve(a + b) == Evolve(a) + Evolve(b)
  {
    if a == [] {
      assert a + b == b;
    } else {
      assert (a + b)[0] == a[0];
      assert (a + b)[1..] == a[1..] + b;
      EvolveAppend(a[1..], b);
    }
  }

  /** Every survivor has positive life and came from some particle by one tick. */
  lemma {:induction false} EvolveSurvivors(s: seq<Particle>, q: Particle)
    requires q in Evolve(s)
    ensures q.life > 0.0
    ensures exists p :: p in s && q == Advance(p)
  {
    if s != [] {
      if q in Evolve(s[1..]) {
        EvolveSurvivors(s[1..], q);
        var p :| p in s[1..] && q == Advance(p);
        assert p in s;
      } else {
        assert q == Advance(s[0]);
      }
    }
  }

  /** A particle whose advanced life is positive survives. */
  lemma {:induction false} EvolveKeepsLiving(s: seq<Particle>, i: nat)
    requires i < |s| && Advance(s[i]).life > 0.0
    ensures Advance(s[i]) in Evolve(s)
  {
    if i > 0 {
      EvolveKeepsLiving(s[1..], i - 1);
    }
  }

  class ParticleSystem {
    var particles: seq<Particle>

    constructor ()
      ensures particles == []
    {
      particles := [];
    }

    /** Appends exactly `count` particles built from the given random draws; existing ones are kept. */
    method CreateParticles(x: real, y: real, count: nat, color: string, speed: real, size: real, lifetime: real, draws: seq<Draw>)
      requires |draws| >= count
      modifies this
      ensures |particles| == |old(particles)| + count
      ensures particles[..|old(particles)|] == old(particles)
      ensures forall i :: 0 <= i < count ==>
                particles[|old(particles)| + i] == Spawn(x, y, color, speed, size, lifetime, draws[i])
      ensures forall i :: |old(particles)| <= i < |particles| ==> particles[i].maxLife == lifetime
    {
      var i := 0;
      while i < count
        invariant 0 <= i <= count
        invariant |particles| == |old(particles)| + i
        invariant particles[..|old(particles)|] == old(particles)
        invariant forall k :: 0 <= k < i ==> particles[|old(particles)| + k] == Spawn(x, y, color, speed, size, lifetime, draws[k])
        invariant forall k :: |old(particles)| <= k < |particles| ==> particles[k].maxLife == lifetime
      {
        particles := particles + [Spawn(x, y, color, speed, size, lifetime, draws[i])];
        i := i + 1;
      }
    }

    /**
     * Walks the list backwards, advancing each particle and splicing out the
     * ones whose life has run out.
     */
    method Update()
      modifies this
      ensures particles == Evolve(old(particles))
    {
      ghost var orig := particles;
      var i := |particles|;
      while i > 0
        invariant 0 <= i <= |orig|
        invariant particles == orig[..i] + Evolve(orig[i..])
      {
        i := i - 1;
        assert particles[i] == orig[i];
        var p := Advance(particles[i]);
        particles := particles[i := p];
        if p.life <= 0.0 {
          particles := particles[..i] + particles[i + 1..];
        }
        assert orig[i..][1..] == orig[i + 1..];
        assert orig[..i + 1][..i] == orig[..i];
      }
      assert orig[0..] == orig;
    }
  }
}
