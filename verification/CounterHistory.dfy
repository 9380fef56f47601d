/**
  What the rows, the answers and the counts of a run mean, told from the actions alone: a like is
  there if the last effective word on it was a like, a comment if it was written and not erased
  since, with the content of its last edit.
 */
module CounterHistory {
  import opened Outcomes
  import opened Counters

  // ---------- comments ----------

  /** The action writes a comment on an existing tweet. */
  predicate Stores(counters: set<Counter>, a: Action) {
    a.Write? && CommentsOf(a.comment.tweet) in counters
  }

  /** How many of the first k actions do so. */
  function Writes(counters: set<Counter>, actions: seq<Action>, k: nat): nat
    requires k <= |actions|
  {
    if k == 0 then 0 else Writes(counters, actions, k - 1) + if Stores(counters, actions[k - 1]) then 1 else 0
  }

  /** The i-th action writes the comment that gets this id: ids are given in turn. */
  predicate WrittenAs(counters: set<Counter>, b: Board, actions: seq<Action>, i: nat, id: int)
    requires i < |actions|
  {
    Stores(counters, actions[i]) && id == b.nextId + Writes(counters, actions, i)
  }

  /**
    After k actions the comment is there: from the start (i is -1) or since the i-th action, and
    not erased since.
   */
  ghost predicate Origin(counters: set<Counter>, b: Board, actions: seq<Action>, k: nat, id: int, i: int)
    requires k <= |actions|
  {
    && -1 <= i < k && (if i == -1 then id in b.comments else WrittenAs(counters, b, actions, i, id))
    && forall j :: i < j < k ==> actions[j] != Erase(id)
  }

  ghost predicate Written(counters: set<Counter>, b: Board, actions: seq<Action>, k: nat, id: int)
    requires k <= |actions|
  {
    exists i :: Origin(counters, b, actions, k, id, i)
  }

  function Original(b: Board, actions: seq<Action>, id: int, i: int): Comment
    requires if i == -1 then id in b.comments else 0 <= i < |actions| && actions[i].Write?
  {
    if i == -1 then b.comments[id] else actions[i].comment
  }

  predicate Edits(a: Action, id: int) {
    a.Edit? && a.id == id
  }

  /** The content of the last edit since the i-th action, or else the original one. */
  ghost predicate ContentIs(actions: seq<Action>, k: nat, id: int, i: int, original: string, content: string)
    requires k <= |actions| && -1 <= i
  {
    || (content == original && forall j :: i < j < k ==> !Edits(actions[j], id))
    || exists m :: i < m < k && actions[m] == Edit(id, content) && forall j :: m < j < k ==> !Edits(actions[j], id)
  }

  // ---------- likes ----------

  ghost predicate KnownAt(counters: set<Counter>, b: Board, actions: seq<Action>, k: nat, l: Like)
    requires k <= |actions|
  {
    if l.kind.TweetKind? then LikesOf(l.target) in counters else Written(counters, b, actions, k, l.target)
  }

  ghost predicate Likes(counters: set<Counter>, b: Board, actions: seq<Action>, i: nat, l: Like)
    requires i < |actions|
  {
    actions[i] == DoLike(l) && KnownAt(counters, b, actions, i, l)
  }

  ghost predicate Cancels(counters: set<Counter>, b: Board, actions: seq<Action>, i: nat, l: Like)
    requires i < |actions|
  {
    actions[i] == Cancel(l) && KnownAt(counters, b, actions, i, l)
  }

  /**
    After k actions the like is there: the last effective word on it was a like, or there was no
    cancel and it was there from the start.
   */
  ghost predicate Liked(counters: set<Counter>, b: Board, actions: seq<Action>, k: nat, l: Like)
    requires k <= |actions|
  {
    || (l in b.likes && forall j :: 0 <= j < k ==> !Cancels(counters, b, actions, j, l))
    || exists i :: 0 <= i < k && Likes(counters, b, actions, i, l)
         && forall j :: i < j < k ==> !Cancels(counters, b, actions, j, l)
  }

  // ---------- one action more ----------

  lemma OriginNext(counters: set<Counter>, b: Board, actions: seq<Action>, k: nat, id: int, i: int)
    requires k < |actions|
    ensures Origin(counters, b, actions, k + 1, id, i) <==>
      || (Origin(counters, b, actions, k, id, i) && actions[k] != Erase(id))
      || (i == k && WrittenAs(counters, b, actions, k, id))
  {
  }

  lemma WrittenNext(counters: set<Counter>, b: Board, actions: seq<Action>, k: nat, id: int)
    requires k < |actions|
    ensures Written(counters, b, actions, k + 1, id) <==>
      (Written(counters, b, actions, k, id) && actions[k] != Erase(id)) || WrittenAs(counters, b, actions, k, id)
  {
    var next := k + 1;
    if Written(counters, b, actions, next, id) {
      var i :| Origin(counters, b, actions, next, id, i);
      OriginNext(counters, b, actions, k, id, i);
    }
    if Written(counters, b, actions, k, id) {
      var i :| Origin(counters, b, actions, k, id, i);
      OriginNext(counters, b, actions, k, id, i);
    }
    OriginNext(counters, b, actions, k, id, k);
  }

  lemma LikedNext(counters: set<Counter>, b: Board, actions: seq<Action>, k: nat, l: Like)
    requires k < |actions|
    ensures Liked(counters, b, actions, k + 1, l) <==>
      Likes(counters, b, actions, k, l)
      || (Liked(counters, b, actions, k, l) && !Cancels(counters, b, actions, k, l))
  {
  }

  lemma {:induction false} LastAction(counters: set<Counter>, b: Board, actions: seq<Action>, a: Action)
    ensures BoardAfter(counters, b, actions + [a]) == Effect(counters, BoardAfter(counters, b, actions), a)
    decreases |actions|
  {
    if actions == [] {
      assert [] + [a] == [a] && [a][1..] == [];
    } else {
      assert (actions + [a])[1..] == actions[1..] + [a];
      LastAction(counters, Effect(counters, b, actions[0]), actions[1..], a);
    }
  }

  lemma BoardNext(counters: set<Counter>, b: Board, actions: seq<Action>, k: nat)
    requires k < |actions|
    ensures var now := BoardAfter(counters, b, actions[..k]);
      BoardAfter(counters, b, actions[..k + 1]) == Effect(counters, now, actions[k])
  {
    LastAction(counters, b, actions[..k], actions[k]);
    assert actions[..k] + [actions[k]] == actions[..k + 1];
  }

  // ---------- the rows of a run ----------

  /** Ids are given out once. */
  ghost predicate SoundBoard(b: Board) {
    forall id :: id in b.comments ==> id < b.nextId
  }

  lemma {:induction false} IdsGiven(counters: set<Counter>, b: Board, actions: seq<Action>, k: nat)
    requires k <= |actions|
    ensures BoardAfter(counters, b, actions[..k]).nextId == b.nextId + Writes(counters, actions, k)
  {
    if k == 0 {
      assert actions[..0] == [];
    } else {
      IdsGiven(counters, b, actions, k - 1);
      BoardNext(counters, b, actions, k - 1);
    }
  }

  /** A comment is there after a run exactly if it was written, or there, and not erased since. */
  lemma {:induction false} CommentsOfRun(counters: set<Counter>, b: Board, actions: seq<Action>, k: nat, id: int)
    requires k <= |actions|
    ensures id in BoardAfter(counters, b, actions[..k]).comments <==> Written(counters, b, actions, k, id)
    decreases k
  {
    if k == 0 {
      assert actions[..0] == [];
      assert id in b.comments ==> Origin(counters, b, actions, 0, id, -1);
    } else {
      CommentsOfRun(counters, b, actions, k - 1, id);
      BoardNext(counters, b, actions, k - 1);
      IdsGiven(counters, b, actions, k - 1);
      WrittenNext(counters, b, actions, k - 1, id);
    }
  }

  lemma {:induction false} WritesGrow(counters: set<Counter>, actions: seq<Action>, i: nat, k: nat)
    requires i <= k <= |actions|
    ensures Writes(counters, actions, i) <= Writes(counters, actions, k)
  {
    if i < k {
      WritesGrow(counters, actions, i, k - 1);
    }
  }

  /** An id that is taken is not given again. */
  lemma NotGivenAgain(counters: set<Counter>, b: Board, actions: seq<Action>, k: nat, id: int, i: int)
    requires k < |actions| && SoundBoard(b) && Origin(counters, b, actions, k, id, i)
    ensures !WrittenAs(counters, b, actions, k, id)
  {
    if i >= 0 {
      WritesGrow(counters, actions, i + 1, k);
    }
  }

  /** And it is the comment that was written, with the content of its last edit. */
  lemma {:induction false} ContentOfRun(counters: set<Counter>, b: Board, actions: seq<Action>, k: nat, id: int, i: int)
    requires k <= |actions| && SoundBoard(b) && Origin(counters, b, actions, k, id, i)
    ensures var comments, original := BoardAfter(counters, b, actions[..k]).comments, Original(b, actions, id, i);
      && id in comments && comments[id].user == original.user && comments[id].tweet == original.tweet
      && ContentIs(actions, k, id, i, original.content, comments[id].content)
    decreases k
  {
    if k == 0 {
      assert actions[..0] == [];
    } else {
      BoardNext(counters, b, actions, k - 1);
      IdsGiven(counters, b, actions, k - 1);
      if i < k - 1 {
        OriginNext(counters, b, actions, k - 1, id, i);
        ContentOfRun(counters, b, actions, k - 1, id, i);
        NotGivenAgain(counters, b, actions, k - 1, id, i);
        ContentNext(actions, k - 1, id, i, Original(b, actions, id, i).content,
                    BoardAfter(counters, b, actions[..k - 1]).comments[id].content);
      }
    }
  }

  lemma ContentNext(actions: seq<Action>, k: nat, id: int, i: int, original: string, content: string)
    requires -1 <= i < k < |actions| && ContentIs(actions, k, id, i, original, content)
    ensures ContentIs(actions, k + 1, id, i, original, if Edits(actions[k], id) then actions[k].content else content)
  {
  }

  /** A like is there after a run exactly if the last effective word on it was a like. */
  lemma {:induction false} LikesOfRun(counters: set<Counter>, b: Board, actions: seq<Action>, k: nat, l: Like)
    requires k <= |actions|
    ensures l in BoardAfter(counters, b, actions[..k]).likes <==> Liked(counters, b, actions, k, l)
    decreases k
  {
    if k == 0 {
      assert actions[..0] == [];
    } else {
      LikesOfRun(counters, b, actions, k - 1, l);
      BoardNext(counters, b, actions, k - 1);
      KnownOfRun(counters, b, actions, k - 1, l);
      LikedNext(counters, b, actions, k - 1, l);
    }
  }

  lemma KnownOfRun(counters: set<Counter>, b: Board, actions: seq<Action>, k: nat, l: Like)
    requires k <= |actions|
    ensures Known(counters, BoardAfter(counters, b, actions[..k]), l) <==> KnownAt(counters, b, actions, k, l)
  {
    CommentsOfRun(counters, b, actions, k, l.target);
  }

  // ---------- the answers of a run ----------

  lemma {:induction false} AnswerInTurn(counters: set<Counter>, b: Board, actions: seq<Action>, k: nat)
    requires k < |actions|
    ensures Answers(counters, b, actions)[k] == Answer(counters, BoardAfter(counters, b, actions[..k]), actions[k])
    decreases k
  {
    if k > 0 {
      AnswerInTurn(counters, Effect(counters, b, actions[0]), actions[1..], k - 1);
      assert actions[..k][1..] == actions[1..][..k - 1];
    }
  }

  /** These are the likes of a tweet after k actions. */
  ghost predicate LikesThen(counters: set<Counter>, b: Board, actions: seq<Action>, k: nat, tweet: int, own: set<Like>)
    requires k <= |actions|
  {
    forall l :: l in own <==> l.kind.TweetKind? && l.target == tweet && Liked(counters, b, actions, k, l)
  }

  /** These are the comments of a tweet after k actions. */
  ghost predicate CommentsThen(counters: set<Counter>, b: Board, actions: seq<Action>, k: nat,
                               tweet: int, own: set<int>)
    requires k <= |actions|
  {
    && (forall id :: id in own ==> Written(counters, b, actions, k, id))
    && forall id, i :: Origin(counters, b, actions, k, id, i) ==>
         (id in own <==> Original(b, actions, id, i).tweet == tweet)
  }

  /** What a run answers to its k-th action, told from the actions. */
  ghost predicate RightAnswer(counters: set<Counter>, b: Board, actions: seq<Action>, k: nat, answer: Option<int>)
    requires k < |actions|
  {
    match actions[k]
    case DoLike(l) =>
      (answer == Some(0) || answer == Some(1))
      && (answer == Some(1) <==> !Liked(counters, b, actions, k, l) && Liked(counters, b, actions, k + 1, l))
    case Cancel(l) =>
      (answer == Some(0) || answer == Some(1))
      && (answer == Some(1) <==> Liked(counters, b, actions, k, l) && !Liked(counters, b, actions, k + 1, l))
    case Write(_) =>
      && (answer.Some? <==> Stores(counters, actions[k]))
      && (answer.Some? ==> WrittenAs(counters, b, actions, k, answer.value))
    case Edit(id, _) => answer == Some(if Written(counters, b, actions, k, id) then 1 else 0)
    case Erase(id) => answer == Some(if Written(counters, b, actions, k, id) then 1 else 0)
    case Read(c) =>
      if c !in counters then answer == None
      else if c.LikesOf? then exists own :: LikesThen(counters, b, actions, k, c.tweet, own) && answer == Some(|own|)
      else exists own :: CommentsThen(counters, b, actions, k, c.tweet, own) && answer == Some(|own|)
    case ExpireCount(_) => answer == None
  }

  /**
    Every answer of a run: a like created or cancelled was not there before, or is not there
    afterwards; ids are given in turn; and a count is the number of likes or comments there.
   */
  lemma AnswersMean(counters: set<Counter>, b: Board, actions: seq<Action>, k: nat)
    requires k < |actions| && SoundBoard(b)
    ensures RightAnswer(counters, b, actions, k, Answers(counters, b, actions)[k])
  {
    var now := BoardAfter(counters, b, actions[..k]);
    AnswerInTurn(counters, b, actions, k);
    match actions[k]
    case DoLike(l) =>
      LikesOfRun(counters, b, actions, k, l);
      KnownOfRun(counters, b, actions, k, l);
      LikedNext(counters, b, actions, k, l);
    case Cancel(l) =>
      LikesOfRun(counters, b, actions, k, l);
      KnownOfRun(counters, b, actions, k, l);
      LikedNext(counters, b, actions, k, l);
    case Write(_) => IdsGiven(counters, b, actions, k);
    case Edit(id, _) => CommentsOfRun(counters, b, actions, k, id);
    case Erase(id) => CommentsOfRun(counters, b, actions, k, id);
    case Read(c) =>
      if c.LikesOf? {
        LikesCounted(counters, b, actions, k, c.tweet);
      } else {
        CommentsCounted(counters, b, actions, k, c.tweet);
      }
    case ExpireCount(_) =>
  }

  lemma LikesCounted(counters: set<Counter>, b: Board, actions: seq<Action>, k: nat, tweet: int)
    requires k <= |actions|
    ensures LikesThen(counters, b, actions, k, tweet, LikesFor(BoardAfter(counters, b, actions[..k]).likes, tweet))
  {
    forall l ensures l in BoardAfter(counters, b, actions[..k]).likes <==> Liked(counters, b, actions, k, l) {
      LikesOfRun(counters, b, actions, k, l);
    }
  }

  lemma CommentsCounted(counters: set<Counter>, b: Board, actions: seq<Action>, k: nat, tweet: int)
    requires k <= |actions| && SoundBoard(b)
    ensures var comments := BoardAfter(counters, b, actions[..k]).comments;
      CommentsThen(counters, b, actions, k, tweet, CommentsFor(comments, tweet))
  {
    var comments := BoardAfter(counters, b, actions[..k]).comments;
    forall id ensures id in comments <==> Written(counters, b, actions, k, id) {
      CommentsOfRun(counters, b, actions, k, id);
    }
    forall id, i | Origin(counters, b, actions, k, id, i)
      ensures id in comments && comments[id].tweet == Original(b, actions, id, i).tweet {
      ContentOfRun(counters, b, actions, k, id, i);
    }
  }

  // ---------- the cached counts of a run ----------

  /** The i-th action moves or reads the count. */
  ghost predicate Touches(counters: set<Counter>, b: Board, actions: seq<Action>, i: nat, c: Counter)
    requires i < |actions|
  {
    match actions[i]
    case Read(d) => d == c && c in counters
    case DoLike(l) =>
      l.kind.TweetKind? && c == LikesOf(l.target)
      && !Liked(counters, b, actions, i, l) && Liked(counters, b, actions, i + 1, l)
    case Cancel(l) =>
      l.kind.TweetKind? && c == LikesOf(l.target)
      && Liked(counters, b, actions, i, l) && !Liked(counters, b, actions, i + 1, l)
    case Write(comment) => Stores(counters, actions[i]) && c == CommentsOf(comment.tweet)
    case Erase(id) =>
      exists j :: Origin(counters, b, actions, i, id, j) && c == CommentsOf(Original(b, actions, id, j).tweet)
    case _ => false
  }

  /** After k actions the count is cached: moved, read or cached from the start, and not expired since. */
  ghost predicate CachedThen(counters: set<Counter>, b: Board, cached: set<Counter>, actions: seq<Action>,
                             k: nat, c: Counter)
    requires k <= |actions|
  {
    || (c in cached && forall j :: 0 <= j < k ==> actions[j] != ExpireCount(c))
    || exists i :: 0 <= i < k && Touches(counters, b, actions, i, c)
         && forall j :: i < j < k ==> actions[j] != ExpireCount(c)
  }

  lemma {:induction false} LastKept(counters: set<Counter>, b: Board, cached: set<Counter>, actions: seq<Action>,
                                    a: Action)
    ensures KeptAfter(counters, b, cached, actions + [a])
         == Kept(counters, BoardAfter(counters, b, actions), KeptAfter(counters, b, cached, actions), a)
    decreases |actions|
  {
    if actions == [] {
      assert [] + [a] == [a] && [a][1..] == [];
    } else {
      assert (actions + [a])[1..] == actions[1..] + [a];
      LastKept(counters, Effect(counters, b, actions[0]), Kept(counters, b, cached, actions[0]), actions[1..], a);
    }
  }

  lemma CachedNext(counters: set<Counter>, b: Board, cached: set<Counter>, actions: seq<Action>, k: nat, c: Counter)
    requires k < |actions|
    ensures CachedThen(counters, b, cached, actions, k + 1, c) <==>
      || Touches(counters, b, actions, k, c)
      || (CachedThen(counters, b, cached, actions, k, c) && actions[k] != ExpireCount(c))
  {
  }

  lemma KeptTouched(counters: set<Counter>, b: Board, cached: set<Counter>, actions: seq<Action>, k: nat, c: Counter)
    requires k < |actions| && SoundBoard(b)
    ensures c in Kept(counters, BoardAfter(counters, b, actions[..k]), cached, actions[k]) <==>
      Touches(counters, b, actions, k, c) || (c in cached && actions[k] != ExpireCount(c))
  {
    match actions[k]
    case DoLike(l) => LikeMoves(counters, b, actions, k, l);
    case Cancel(l) => LikeMoves(counters, b, actions, k, l);
    case Erase(id) =>
      CommentsOfRun(counters, b, actions, k, id);
      forall j | Origin(counters, b, actions, k, id, j)
        ensures Original(b, actions, id, j).tweet == BoardAfter(counters, b, actions[..k]).comments[id].tweet {
        ContentOfRun(counters, b, actions, k, id, j);
      }
    case _ =>
  }

  lemma LikeMoves(counters: set<Counter>, b: Board, actions: seq<Action>, k: nat, l: Like)
    requires k < |actions|
    ensures var now := BoardAfter(counters, b, actions[..k]);
      && (l in now.likes <==> Liked(counters, b, actions, k, l))
      && (actions[k] == DoLike(l) ==>
            (Liked(counters, b, actions, k + 1, l) <==> l in now.likes || Known(counters, now, l)))
      && (actions[k] == Cancel(l) ==>
            (Liked(counters, b, actions, k + 1, l) <==> l in now.likes && !Known(counters, now, l)))
  {
    LikesOfRun(counters, b, actions, k, l);
    KnownOfRun(counters, b, actions, k, l);
    LikedNext(counters, b, actions, k, l);
  }

  /** Without faults a count is cached after a run exactly if it was moved or read, and has not expired since. */
  lemma {:induction false} KeptOfRun(counters: set<Counter>, b: Board, cached: set<Counter>, actions: seq<Action>,
                                     k: nat, c: Counter)
    requires k <= |actions| && SoundBoard(b)
    ensures c in KeptAfter(counters, b, cached, actions[..k]) <==> CachedThen(counters, b, cached, actions, k, c)
    decreases k
  {
    if k == 0 {
      assert actions[..0] == [];
    } else {
      var j := k - 1;
      KeptOfRun(counters, b, cached, actions, j, c);
      LastKept(counters, b, cached, actions[..j], actions[j]);
      assert actions[..j] + [actions[j]] == actions[..k];
      KeptTouched(counters, b, KeptAfter(counters, b, cached, actions[..j]), actions, j, c);
      CachedNext(counters, b, cached, actions, j, c);
    }
  }
}
