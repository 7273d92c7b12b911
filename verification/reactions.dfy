/** The reaction guard of the like and dislike handlers: a counter paired with
    the list of participants who already reacted with that polarity. A repeated
    reaction is a silent no-op; likes and dislikes are guarded independently. */
module Reactions {
  import opened Prelude
  import opened Models

  datatype Polarity = Like | Dislike

  function Other(p: Polarity): Polarity
  {
    if p == Like then Dislike else Like
  }

  /** `likes` or `dislikes`. */
  function Counter(v: Votes, p: Polarity): nat
  {
    if p == Like then v.likes else v.dislikes
  }

  /** `likedBy` or `dislikedBy`. */
  function Reactors(v: Votes, p: Polarity): seq<string>
  {
    if p == Like then v.likedBy else v.dislikedBy
  }

  /** One reaction of participant `u`: counted only if `u` has not reacted
      with this polarity before. */
  function React(v: Votes, p: Polarity, u: string): (r: Votes)
    ensures u in Reactors(r, p)
    ensures Counter(r, p) == if u in Reactors(v, p) then Counter(v, p) else Counter(v, p) + 1
    ensures Reactors(v, p) <= Reactors(r, p) && |Reactors(r, p)| <= |Reactors(v, p)| + 1
    ensures Counter(r, Other(p)) == Counter(v, Other(p)) && Reactors(r, Other(p)) == Reactors(v, Other(p))
  {
    if p == Like then
      if u in v.likedBy then v else v.(likes := v.likes + 1, likedBy := v.likedBy + [u])
    else
      if u in v.dislikedBy then v else v.(dislikes := v.dislikes + 1, dislikedBy := v.dislikedBy + [u])
  }

  /** Each counter equals the number of distinct participants in its list. */
  predicate Tallied(v: Votes)
  {
    v.likes == |v.likedBy| && v.dislikes == |v.dislikedBy| &&
    NoDuplicates(v.likedBy) && NoDuplicates(v.dislikedBy)
  }

  datatype Reaction = Reaction(polarity: Polarity, userId: string)

  /** A sequence of reactions applied one after the other. */
  function ReactAll(v: Votes, rs: seq<Reaction>): Votes
  {
    if rs == [] then v
    else var last := rs[|rs| - 1]; React(ReactAll(v, rs[..|rs| - 1]), last.polarity, last.userId)
  }

  /** Reacting again with the same polarity changes nothing. */
  lemma ReactIdempotent(v: Votes, p: Polarity, u: string)
    ensures React(React(v, p, u), p, u) == React(v, p, u)
  {
  }

  /** Two reactions of one participant with one polarity count once. */
  lemma ReactTwiceCountsOnce(v: Votes, p: Polarity, u: string)
    ensures Counter(React(React(v, p, u), p, u), p) == Counter(v, p) + (if u in Reactors(v, p) then 0 else 1)
  {
  }

  /** A participant who has not reacted can both like and dislike: each counter
      goes up by one, in either order. */
  lemma LikeAndDislikeIndependent(v: Votes, u: string)
    requires u !in v.likedBy && u !in v.dislikedBy
    ensures var r := React(React(v, Like, u), Dislike, u);
      r.likes == v.likes + 1 && r.dislikes == v.dislikes + 1
    ensures React(React(v, Like, u), Dislike, u) == React(React(v, Dislike, u), Like, u)
  {
  }

  /** The guard keeps every counter equal to the number of distinct reactors. */
  lemma ReactKeepsTallied(v: Votes, p: Polarity, u: string)
    requires Tallied(v)
    ensures Tallied(React(v, p, u))
  {
  }

  /** Starting from the schema defaults, after any sequence of reactions each
      counter is the size of its reactor list, which holds each participant
      once, and exactly those who reacted with that polarity. */
  lemma {:induction false} ReactAllFromDefaults(rs: seq<Reaction>)
    ensures Tallied(ReactAll(NoVotes, rs))
    ensures forall p: Polarity, u: string :: u in Reactors(ReactAll(NoVotes, rs), p) <==> Reaction(p, u) in rs
  {
    if rs != [] {
      var init := rs[..|rs| - 1];
      var last := rs[|rs| - 1];
      ReactAllFromDefaults(init);
      ReactKeepsTallied(ReactAll(NoVotes, init), last.polarity, last.userId);
      assert rs == init + [last];
      forall p: Polarity, u: string
        ensures u in Reactors(ReactAll(NoVotes, rs), p) <==> Reaction(p, u) in rs
      {
        assert Reaction(p, u) in rs <==> Reaction(p, u) in init || Reaction(p, u) == last;
      }
    }
  }

  /** Counters never decrease along a sequence of reactions. */
  lemma {:induction false} ReactAllMonotone(v: Votes, rs: seq<Reaction>)
    ensures ReactAll(v, rs).likes >= v.likes && ReactAll(v, rs).dislikes >= v.dislikes
  {
    if rs != [] {
      ReactAllMonotone(v, rs[..|rs| - 1]);
    }
  }
}
