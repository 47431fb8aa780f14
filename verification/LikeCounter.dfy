/** Like toggles on one target: a membership row per user and a denormalised counter. */
module LikeCounter {
  import opened Prelude

  type User = string

  /** How far a user's toggle has got. The per-user advisory lock allows one at a time. */
  datatype Phase =
    | Locked
    | Read(liked: bool)
    | Counted(liked: bool, count: int)

  /** Committed membership and counter. The counter's row lock is held from its UPDATE to the commit,
      so at most one toggle is in the `Counted` phase. */
  datatype World = World(likes: set<User>, count: int, open: map<User, Phase>)

  datatype Step = Lock(user: User) | ReadLike(user: User) | Count(user: User) | Commit(user: User) | Abort(user: User)

  predicate RowLocked(w: World) { exists u :: u in w.open && w.open[u].Counted? }

  /** The guarded UPDATE, re-evaluated on the committed row once the row lock is free. */
  function Updated(liked: bool, count: int): int
  {
    if !liked then count + 1 else if count > 0 then count - 1 else count
  }

  function Next(w: World, s: Step): World
  {
    match s
    case Lock(u) => if u in w.open then w else w.(open := w.open[u := Locked])
    case ReadLike(u) =>
      if u in w.open && w.open[u].Locked? then w.(open := w.open[u := Read(u in w.likes)]) else w
    case Count(u) =>
      if u in w.open && w.open[u].Read? && !RowLocked(w) then
        w.(open := w.open[u := Counted(w.open[u].liked, Updated(w.open[u].liked, w.count))])
      else w
    case Commit(u) =>
      if u in w.open && w.open[u].Counted? then
        World(if w.open[u].liked then w.likes - {u} else w.likes + {u}, w.open[u].count, w.open - {u})
      else w
    case Abort(u) => w.(open := w.open - {u})
  }

  function Run(w: World, steps: seq<Step>): World
  {
    if steps == [] then w else Next(Run(w, steps[..|steps| - 1]), steps[|steps| - 1])
  }

  ghost predicate Inv(w: World)
  {
    && w.count == |w.likes|
    && (forall u :: u in w.open && !w.open[u].Locked? ==> (w.open[u].liked <==> u in w.likes))
    && (forall u :: u in w.open && w.open[u].Counted? ==>
          w.open[u].count == if w.open[u].liked then w.count - 1 else w.count + 1)
    && (forall u, v :: u in w.open && v in w.open && w.open[u].Counted? && w.open[v].Counted? ==> u == v)
  }

  lemma LikedIsCounted(w: World, u: User)
    requires Inv(w) && u in w.likes
    ensures w.count > 0
  {}

  lemma NextKeepsInv(w: World, s: Step)
    requires Inv(w)
    ensures Inv(Next(w, s))
  {}

  lemma {:induction false} RunKeepsInv(likes: set<User>, steps: seq<Step>)
    ensures Inv(Run(World(likes, |likes|, map[]), steps))
  {
    if steps != [] {
      RunKeepsInv(likes, steps[..|steps| - 1]);
      NextKeepsInv(Run(World(likes, |likes|, map[]), steps[..|steps| - 1]), steps[|steps| - 1]);
    }
  }

  /** In every interleaving the committed counter is the number of membership rows, not only when no
      toggle is in flight; the `like_count > 0` guard never drops a decrement; and a toggle that
      commits flips exactly its own user's membership. */
  lemma CounterIsExact(likes: set<User>, steps: seq<Step>, u: User)
    ensures var w := Run(World(likes, |likes|, map[]), steps);
            && w.count == |w.likes|
            && (u in w.open && w.open[u].Read? && w.open[u].liked ==> Updated(true, w.count) == w.count - 1)
            && (u in w.open && w.open[u].Counted? ==>
                  var w' := Next(w, Commit(u));
                  (u in w'.likes <==> u !in w.likes) && w'.likes - {u} == w.likes - {u})
  {
    RunKeepsInv(likes, steps);
    var w := Run(World(likes, |likes|, map[]), steps);
    if u in w.likes { LikedIsCounted(w, u); }
  }
}
