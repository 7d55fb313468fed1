/**
 * The playback module the timeline compiles a document into
 * (`demos/zomb1/zomb1.am.js`): one player generator per track, each building
 * its animation jobs and keeping a small play/pause/seek state machine over a
 * lazily bound controller, and `createPlayer`, which instantiates every
 * generator and fans each call out to all of them.
 *
 * The Web Animations objects are abstract: an `Animation` is the triple it is
 * built from, an animation group is the list of its animations, and the
 * controller `document.timeline.play` returns is a `Controller` with a paused
 * flag and a current time.
 */
module CompiledPlayer {

  /** A DOM element matched by a generator's selector, by identity. */
  datatype Element = Element(id: nat)

  /** One keyframe of a parameter: its offset in the run and its CSS text. */
  datatype Keyframe = Keyframe(offset: real, css: string)

  /** The timing options every animation of a generator shares. */
  datatype Options = Options(direction: string, duration: real, iterations: nat, fill: string)

  /** `new Animation(elem, keys, options)`. */
  datatype Animation = Animation(target: Element, keys: seq<Keyframe>, options: Options)

  /** What a generator closes over: its selector, one keyframe list per parameter, and its options. */
  datatype Generator = Generator(selector: string, paramKeys: seq<seq<Keyframe>>, options: Options)

  /** The animations for one element: one per parameter, in parameter order. */
  function Row(e: Element, paramKeys: seq<seq<Keyframe>>, options: Options): (r: seq<Animation>)
    ensures |r| == |paramKeys|
    ensures forall j :: 0 <= j < |paramKeys| ==> r[j] == Animation(e, paramKeys[j], options)
  {
    seq(|paramKeys|, j requires 0 <= j < |paramKeys| => Animation(e, paramKeys[j], options))
  }

  /** The jobs of the nested loop: element-major, parameter-minor. */
  function JobGrid(elems: seq<Element>, paramKeys: seq<seq<Keyframe>>, options: Options): seq<Animation> {
    if |elems| == 0 then []
    else JobGrid(elems[..|elems| - 1], paramKeys, options) + Row(elems[|elems| - 1], paramKeys, options)
  }

  /** The grid holds one job per (element, parameter) pair. */
  lemma {:induction false} JobGridLength(elems: seq<Element>, paramKeys: seq<seq<Keyframe>>, options: Options)
    ensures |JobGrid(elems, paramKeys, options)| == |elems| * |paramKeys|
  {
    if |elems| > 0 {
      JobGridLength(elems[..|elems| - 1], paramKeys, options);
      assert (|elems| - 1) * |paramKeys| + |paramKeys| == |elems| * |paramKeys|;
    }
  }

  /** The job for element `i` and parameter `j` stands at index `i * |paramKeys| + j`. */
  lemma {:induction false} JobGridAt(elems: seq<Element>, paramKeys: seq<seq<Keyframe>>, options: Options, i: nat, j: nat)
    requires i < |elems| && j < |paramKeys|
    ensures i * |paramKeys| + j < |JobGrid(elems, paramKeys, options)|
    ensures JobGrid(elems, paramKeys, options)[i * |paramKeys| + j] == Animation(elems[i], paramKeys[j], options)
  {
    var n := |elems|;
    var init := elems[..n - 1];
    var g := JobGrid(init, paramKeys, options);
    JobGridLength(init, paramKeys, options);
    assert |g| == (n - 1) * |paramKeys|;
    if i < n - 1 {
      JobGridAt(init, paramKeys, options, i, j);
      assert init[i] == elems[i];
      MulStep(i, n - 1, |paramKeys|, j);
    } else {
      assert i * |paramKeys| + j == |g| + j;
    }
  }

  /** Row `i` of a grid with `m` rows of width `w` ends inside it. */
  lemma MulStep(i: nat, m: nat, w: nat, j: nat)
    requires i < m && j < w
    ensures i * w + j < m * w
  {
    assert (i + 1) * w <= m * w;
  }

  /**
   * The nested `for` loop of a generator: for each element, for each
   * parameter, push an animation.
   */
  method BuildJobs(elems: seq<Element>, paramKeys: seq<seq<Keyframe>>, options: Options) returns (animations: seq<Animation>)
    ensures animations == JobGrid(elems, paramKeys, options)
  {
    animations := [];
    var i := 0;
    while i < |elems|
      invariant 0 <= i <= |elems|
      invariant animations == JobGrid(elems[..i], paramKeys, options)
    {
      var j := 0;
      while j < |paramKeys|
        invariant 0 <= j <= |paramKeys|
        invariant animations == JobGrid(elems[..i], paramKeys, options) + Row(elems[i], paramKeys[..j], options)
      {
        assert Row(elems[i], paramKeys[..j + 1], options) == Row(elems[i], paramKeys[..j], options) + [Animation(elems[i], paramKeys[j], options)];
        animations := animations + [Animation(elems[i], paramKeys[j], options)];
        j := j + 1;
      }
      assert paramKeys[..j] == paramKeys;
      assert elems[..i + 1][..i] == elems[..i];
      i := i + 1;
    }
    assert elems[..i] == elems;
  }

  /** The controller a player binds: paused or running, at some current time. */
  class Controller {
    const animation: seq<Animation>
    var paused: bool
    var currentTime: real

    /** `document.timeline.play(animation)`: a running controller at time 0. */
    constructor (animation: seq<Animation>)
      ensures this.animation == animation && !paused && currentTime == 0.0
    {
      this.animation := animation;
      paused := false;
      currentTime := 0.0;
    }
  }

  /** What a track player's controller looks like from outside: none yet, or bound. */
  datatype PlayerState = Unbound | Bound(paused: bool, currentTime: real)

  /** A call `callPlayers` fans out: `play`, `pause` or `seek(time)`. */
  datatype Call = PlayCall | PauseCall | SeekCall(time: real)

  /** The effect of one call on a track player's state. */
  function Apply(c: Call, s: PlayerState): (r: PlayerState)
    ensures r.Bound? <==> s.Bound? || c.PlayCall?
    ensures c.PlayCall? ==> !r.paused && r.currentTime == (if s.Bound? then s.currentTime else 0.0)
    ensures c.PauseCall? && s.Bound? ==> r.paused && r.currentTime == s.currentTime
    ensures c.SeekCall? && s.Bound? ==> r.paused == s.paused && r.currentTime == c.time
    ensures !c.PlayCall? && s.Unbound? ==> r == s
  {
    match c
    case PlayCall => Bound(false, if s.Bound? then s.currentTime else 0.0)
    case PauseCall => if s.Unbound? then s else s.(paused := true)
    case SeekCall(t) => if s.Unbound? then s else s.(currentTime := t)
  }

  /** The state after a run of calls, applied in order. */
  function Run(calls: seq<Call>, s: PlayerState): PlayerState
    decreases |calls|
  {
    if |calls| == 0 then s else Run(calls[1..], Apply(calls[0], s))
  }

  /** Whatever runs before it, no controller exists until the first `play`. */
  lemma {:induction false} UnboundUntilPlay(calls: seq<Call>)
    ensures Run(calls, Unbound).Bound? <==> PlayCall in calls
    decreases |calls|
  {
    if |calls| > 0 {
      if calls[0].PlayCall? {
        BoundStaysBound(calls[1..], Apply(calls[0], Unbound));
      } else {
        UnboundUntilPlay(calls[1..]);
        assert calls == [calls[0]] + calls[1..];
      }
    }
  }

  /** Once bound, a player stays bound. */
  lemma {:induction false} BoundStaysBound(calls: seq<Call>, s: PlayerState)
    requires s.Bound?
    ensures Run(calls, s).Bound?
    decreases |calls|
  {
    if |calls| > 0 {
      BoundStaysBound(calls[1..], Apply(calls[0], s));
    }
  }

  /** The list of states of the players, in order. */
  function Applied(c: Call, ss: seq<PlayerState>): (r: seq<PlayerState>)
    ensures |r| == |ss|
    ensures forall k :: 0 <= k < |ss| ==> r[k] == Apply(c, ss[k])
  {
    seq(|ss|, k requires 0 <= k < |ss| => Apply(c, ss[k]))
  }

  /**
   * The object a generator returns: the animation group it built, the
   * controller it binds on the first `play`, and the `isInited` flag.
   */
  class TrackPlayer {
    const animation: seq<Animation>
    var player: Controller?
    var isInited: bool

    /** `isInited` is set exactly when a controller is bound. */
    ghost predicate Valid()
      reads this
    {
      isInited <==> player != null
    }

    ghost function State(): PlayerState
      reads this, player
    {
      if player == null then Unbound else Bound(player.paused, player.currentTime)
    }

    constructor (animation: seq<Animation>)
      ensures Valid() && this.animation == animation && player == null && !isInited
    {
      this.animation := animation;
      player := null;
      isInited := false;
    }

    /** `play`: binds a controller on the first call, resumes the bound one after. */
    method Play()
      requires Valid()
      modifies this`player, this`isInited, player
      ensures Valid()
      ensures State() == Apply(PlayCall, old(State()))
      ensures old(player) != null ==> player == old(player)
      ensures old(player) == null ==> fresh(player) && player.animation == animation
    {
      if !isInited {
        player := new Controller(animation);
        isInited := true;
      } else {
        player.paused := false;
      }
    }

    /** `pause`: nothing until a controller is bound, then pauses it. */
    method Pause()
      requires Valid()
      modifies player
      ensures State() == Apply(PauseCall, old(State()))
    {
      if player == null {
        return;
      }
      player.paused := true;
    }

    /** `seek(time)`: nothing until a controller is bound, then sets its current time. */
    method Seek(time: real)
      requires Valid()
      modifies player
      ensures State() == Apply(SeekCall(time), old(State()))
    {
      if player == null {
        return;
      }
      player.currentTime := time;
    }

    /** `sequencePlayer[fnName].call(null, arg1)`. */
    method Invoke(c: Call)
      requires Valid()
      modifies this`player, this`isInited, player
      ensures Valid()
      ensures State() == Apply(c, old(State()))
      ensures old(player) != null ==> player == old(player)
      ensures old(player) == null && player != null ==> fresh(player)
    {
      match c
      case PlayCall => Play();
      case PauseCall => Pause();
      case SeekCall(t) => Seek(t);
    }
  }

  /**
   * One generator run: select the elements, build the jobs, group them, and
   * return an unbound player. `querySelectorAll` is given as a function.
   */
  method CreateTrackPlayer(gen: Generator, querySelectorAll: string -> seq<Element>) returns (p: TrackPlayer)
    ensures fresh(p) && p.Valid() && p.player == null
    ensures p.animation == JobGrid(querySelectorAll(gen.selector), gen.paramKeys, gen.options)
  {
    var elems := querySelectorAll(gen.selector);
    var animations := BuildJobs(elems, gen.paramKeys, gen.options);
    p := new TrackPlayer(animations);
  }

  /** The aggregate `createPlayer` returns: the track players, in generator order. */
  class Player {
    var players: seq<TrackPlayer>

    /** The bound controllers. */
    ghost function Controllers(): set<object>
      reads this, players
    {
      set k | 0 <= k < |players| && players[k].player != null :: players[k].player
    }

    /**
     * Every track player is its own object in a valid state, and no two
     * share a controller.
     */
    ghost predicate Valid()
      reads this, players
    {
      (forall a, b :: 0 <= a < b < |players| ==> players[a] != players[b])
      && (forall k :: 0 <= k < |players| ==> players[k].Valid())
      && (forall a, b :: 0 <= a < b < |players| && players[a].player != null ==> players[a].player != players[b].player)
    }

    ghost function States(): (r: seq<PlayerState>)
      reads this, players, Controllers()
      ensures |r| == |players|
    {
      seq(|players|, k reads this, players, Controllers() requires 0 <= k < |players| => players[k].State())
    }

    constructor ()
      ensures Valid() && players == []
    {
      players := [];
    }

    /**
     * `createPlayer`: runs every generator once, in order, and keeps the
     * players it returns.
     */
    static method CreatePlayer(gens: seq<Generator>, querySelectorAll: string -> seq<Element>) returns (agg: Player)
      ensures fresh(agg) && agg.Valid()
      ensures |agg.players| == |gens|
      ensures forall k :: 0 <= k < |gens| ==>
        fresh(agg.players[k]) && agg.players[k].player == null
        && agg.players[k].animation == JobGrid(querySelectorAll(gens[k].selector), gens[k].paramKeys, gens[k].options)
    {
      agg := new Player();
      var i := 0;
      while i < |gens|
        invariant 0 <= i <= |gens| && |agg.players| == i
        invariant fresh(agg)
        invariant agg.Valid()
        invariant forall k :: 0 <= k < i ==>
          fresh(agg.players[k]) && agg.players[k].player == null
          && agg.players[k].animation == JobGrid(querySelectorAll(gens[k].selector), gens[k].paramKeys, gens[k].options)
      {
        var p := CreateTrackPlayer(gens[i], querySelectorAll);
        agg.players := agg.players + [p];
        i := i + 1;
      }
    }

    /**
     * `callPlayers(fnName, arg1)`: the same call, with the same argument, on
     * every track player in order.
     */
    method CallPlayers(c: Call)
      requires Valid()
      modifies players, Controllers()
      ensures Valid()
      ensures States() == Applied(c, old(States()))
    {
      ghost var before := States();
      var i := 0;
      while i < |players|
        invariant 0 <= i <= |players|
        invariant Valid()
        invariant forall k :: 0 <= k < |players| ==> players[k].player == old(players[k].player) || fresh(players[k].player)
        invariant forall k :: i <= k < |players| ==> players[k].player == old(players[k].player)
        invariant forall k :: 0 <= k < i ==> players[k].State() == Apply(c, before[k])
        invariant forall k :: i <= k < |players| ==> players[k].State() == before[k]
      {
        players[i].Invoke(c);
        i := i + 1;
      }
    }

    /** `play`, bound to `callPlayers('play')`. */
    method Play()
      requires Valid()
      modifies players, Controllers()
      ensures Valid()
      ensures States() == Applied(PlayCall, old(States()))
    {
      CallPlayers(PlayCall);
    }

    /** `pause`, bound to `callPlayers('pause')`. */
    method Pause()
      requires Valid()
      modifies players, Controllers()
      ensures Valid()
      ensures States() == Applied(PauseCall, old(States()))
    {
      CallPlayers(PauseCall);
    }

    /** `seek(time)`, bound to `callPlayers('seek')`. */
    method Seek(time: real)
      requires Valid()
      modifies players, Controllers()
      ensures Valid()
      ensures States() == Applied(SeekCall(time), old(States()))
    {
      CallPlayers(SeekCall(time));
    }
  }
}
