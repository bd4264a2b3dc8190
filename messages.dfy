/** The pure choices the console front end makes when it draws the screen:
    which log lines fit in the window, how the remaining bees are tallied by
    kind, and what the game-over screen reports. */
module Messages {
  import opened Bees
  import opened GameRules

  /** The log lines shown: the whole log when it fits in the window, otherwise
      exactly its last `logSize` entries. A negative window is out of bounds for
      the slice and so is excluded. */
  function LogTail<T>(logs: seq<T>, logSize: int): (view: seq<T>)
    requires logSize >= 0
    ensures |logs| <= logSize ==> view == logs
    ensures |logs| > logSize ==> |view| == logSize
    ensures |view| <= |logs| && view == logs[|logs| - |view|..]
  {
    if |logs| > logSize then logs[|logs| - logSize..] else logs
  }

  /** As long as the window has room for one line, the newest message is on
      screen, as the last line shown. */
  lemma NewestMessageShown<T>(logs: seq<T>, e: T, logSize: int)
    requires logSize > 0
    ensures var view := LogTail(logs + [e], logSize);
      view != [] && view[|view| - 1] == e
  {
  }

  /** One line of the remaining-bees list: a kind, how many bees of it are left
      and their hit points. */
  datatype Group = Group(kind: BeeType, count: nat, hps: seq<int>)

  /** The hit points of the bees of one kind, in hive order. */
  function HpsOf(hive: seq<BeeStats>, kind: BeeType): (hps: seq<int>)
    ensures |hps| <= |hive|
    decreases |hive|
  {
    if hive == [] then []
    else
      var last := hive[|hive| - 1];
      HpsOf(hive[..|hive| - 1], kind) + (if last.kind == kind then [last.hp] else [])
  }

  /** The kinds in the order the list shows them. */
  const TypeOrder: seq<BeeType> := [Queen, Worker, Drone]

  /** The list line for one kind, or nothing when no bee of that kind is left. */
  function GroupOf(hive: seq<BeeStats>, kind: BeeType): seq<Group> {
    var hps := HpsOf(hive, kind);
    if hps == [] then [] else [Group(kind, |hps|, hps)]
  }

  /** The list lines for the given kinds, in their order. */
  function TallyIn(hive: seq<BeeStats>, kinds: seq<BeeType>): seq<Group>
    decreases |kinds|
  {
    if kinds == [] then []
    else TallyIn(hive, kinds[..|kinds| - 1]) + GroupOf(hive, kinds[|kinds| - 1])
  }

  /** The remaining-bees list. */
  function Tally(hive: seq<BeeStats>): seq<Group> {
    TallyIn(hive, TypeOrder)
  }

  /** The two maps of the tally loop hold, for each kind seen so far, under its
      name, the number of such bees and their hit points in order, and nothing
      else. */
  ghost predicate Collected(seen: seq<BeeStats>, counts: map<string, nat>, hps: map<string, seq<int>>) {
    && counts.Keys == hps.Keys
    && counts.Keys <= {TypeName(Queen), TypeName(Worker), TypeName(Drone)}
    && (forall k :: TypeName(k) in counts <==> HpsOf(seen, k) != [])
    && (forall k :: TypeName(k) in counts ==>
          counts[TypeName(k)] == |HpsOf(seen, k)| && hps[TypeName(k)] == HpsOf(seen, k))
  }

  /** One bee more: its count goes up by one and its hit points are appended. */
  lemma CollectStep(seen: seq<BeeStats>, bee: BeeStats, counts: map<string, nat>, hps: map<string, seq<int>>)
    requires Collected(seen, counts, hps)
    ensures var name := TypeName(bee.kind);
      Collected(seen + [bee],
        counts[name := (if name in counts then counts[name] else 0) + 1],
        hps[name := (if name in hps then hps[name] else []) + [bee.hp]])
  {
    var name := TypeName(bee.kind);
    assert (seen + [bee])[..|seen|] == seen;
    forall k ensures TypeName(k) == name <==> k == bee.kind {
      TypeNameInjective(k, bee.kind);
    }
  }

  /** Once the whole hive is collected, the maps give each kind's line. */
  lemma GroupFromMaps(hive: seq<BeeStats>, counts: map<string, nat>, hps: map<string, seq<int>>, kind: BeeType)
    requires Collected(hive, counts, hps)
    ensures GroupOf(hive, kind) ==
      if TypeName(kind) in counts then [Group(kind, counts[TypeName(kind)], hps[TypeName(kind)])] else []
  {
  }

  /** The counting half of the tally loop: one pass over the hive, adding each
      bee under its kind's name. */
  method CollectKinds(hive: seq<BeeStats>) returns (counts: map<string, nat>, hps: map<string, seq<int>>)
    ensures Collected(hive, counts, hps)
  {
    counts, hps := map[], map[];
    for i := 0 to |hive|
      invariant Collected(hive[..i], counts, hps)
    {
      var name := TypeName(hive[i].kind);
      assert hive[..i + 1] == hive[..i] + [hive[i]];
      CollectStep(hive[..i], hive[i], counts, hps);
      counts := counts[name := (if name in counts then counts[name] else 0) + 1];
      hps := hps[name := (if name in hps then hps[name] else []) + [hive[i].hp]];
    }
    assert hive[..|hive|] == hive;
  }

  /** The tally loop of the front end: count the bees and collect their hit
      points in maps keyed by kind name, then walk the kinds in the fixed order
      and emit a line for each name that was seen. */
  method RemainingBees(hive: seq<BeeStats>) returns (groups: seq<Group>)
    ensures groups == Tally(hive)
  {
    var counts, hps := CollectKinds(hive);
    groups := [];
    for j := 0 to |TypeOrder|
      invariant groups == TallyIn(hive, TypeOrder[..j])
    {
      var kind := TypeOrder[j];
      assert TypeOrder[..j + 1][..j] == TypeOrder[..j];
      GroupFromMaps(hive, counts, hps, kind);
      if TypeName(kind) in counts {
        groups := groups + [Group(kind, counts[TypeName(kind)], hps[TypeName(kind)])];
      }
    }
    assert TypeOrder[..|TypeOrder|] == TypeOrder;
  }

  /** Hit-point lists follow hive order: the list for a hive made of two parts is
      the list for the first part followed by that for the second. */
  lemma {:induction false} HpsOfConcat(a: seq<BeeStats>, b: seq<BeeStats>, kind: BeeType)
    ensures HpsOf(a + b, kind) == HpsOf(a, kind) + HpsOf(b, kind)
    decreases |b|
  {
    if b == [] {
      assert a + b == a;
    } else {
      var b' := b[..|b| - 1];
      assert (a + b)[..|a + b| - 1] == a + b';
      HpsOfConcat(a, b', kind);
    }
  }

  /** Every bee is counted under exactly one kind. */
  lemma {:induction false} KindsPartitionHive(hive: seq<BeeStats>)
    ensures |HpsOf(hive, Queen)| + |HpsOf(hive, Worker)| + |HpsOf(hive, Drone)| == |hive|
    decreases |hive|
  {
    if hive != [] {
      KindsPartitionHive(hive[..|hive| - 1]);
    }
  }

  /** The list is the queen line, then the worker line, then the drone line,
      each present only when bees of that kind are left. */
  lemma TallyUnfold(hive: seq<BeeStats>)
    ensures Tally(hive) == GroupOf(hive, Queen) + GroupOf(hive, Worker) + GroupOf(hive, Drone)
  {
    assert TypeOrder[..2] == [Queen, Worker];
    assert [Queen, Worker][..1] == [Queen];
    assert [Queen][..0] == [];
    assert TallyIn(hive, [Queen]) == GroupOf(hive, Queen);
    assert TallyIn(hive, [Queen, Worker]) == GroupOf(hive, Queen) + GroupOf(hive, Worker);
  }

  function Total(groups: seq<Group>): int
    decreases |groups|
  {
    if groups == [] then 0 else Total(groups[..|groups| - 1]) + groups[|groups| - 1].count
  }

  /** The list's counts add up to the number of bees left. */
  lemma TallyCountsSumToHive(hive: seq<BeeStats>)
    ensures Total(Tally(hive)) == |hive|
  {
    KindsPartitionHive(hive);
    TallyUnfold(hive);
    var q, w, d := GroupOf(hive, Queen), GroupOf(hive, Worker), GroupOf(hive, Drone);
    assert Total(q) == |HpsOf(hive, Queen)|;
    assert Total(q + w) == Total(q) + |HpsOf(hive, Worker)| by {
      if w != [] { assert (q + w)[..|q + w| - 1] == q; }
      else { assert q + w == q; }
    }
    assert Total(q + w + d) == Total(q + w) + |HpsOf(hive, Drone)| by {
      if d != [] { assert (q + w + d)[..|q + w + d| - 1] == q + w; }
      else { assert q + w + d == q + w; }
    }
  }

  /** The position of a kind in the list's order. */
  function Rank(kind: BeeType): nat {
    match kind
    case Queen => 0
    case Worker => 1
    case Drone => 2
  }

  /** Every line of a partial list belongs to one of the kinds walked so far and
      carries exactly that kind's hit points, of which there is at least one. */
  lemma {:induction false} TallyInLines(hive: seq<BeeStats>, kinds: seq<BeeType>)
    ensures forall g :: g in TallyIn(hive, kinds) ==>
      g.kind in kinds && g.hps == HpsOf(hive, g.kind) && g.hps != [] && g.count == |g.hps|
    decreases |kinds|
  {
    if kinds != [] {
      TallyInLines(hive, kinds[..|kinds| - 1]);
    }
  }

  /** A kind walked so far has a line exactly when some bee of it is left. */
  lemma {:induction false} TallyInCovers(hive: seq<BeeStats>, kinds: seq<BeeType>, k: BeeType)
    requires k in kinds
    ensures (exists g :: g in TallyIn(hive, kinds) && g.kind == k) <==> HpsOf(hive, k) != []
    decreases |kinds|
  {
    TallyInLines(hive, kinds);
    var init, last := kinds[..|kinds| - 1], kinds[|kinds| - 1];
    assert kinds == init + [last];
    if HpsOf(hive, k) != [] {
      if k == last {
        var g := Group(k, |HpsOf(hive, k)|, HpsOf(hive, k));
        assert g in GroupOf(hive, k);
        assert g in TallyIn(hive, kinds);
      } else {
        TallyInCovers(hive, init, k);
        var g :| g in TallyIn(hive, init) && g.kind == k;
        assert g in TallyIn(hive, kinds);
      }
    }
  }

  /** Lines whose kinds strictly increase in rank. */
  predicate Ascending(t: seq<Group>) {
    forall i, j :: 0 <= i < j < |t| ==> Rank(t[i].kind) < Rank(t[j].kind)
  }

  /** Walking kinds in increasing rank gives lines in increasing rank. */
  lemma {:induction false} TallyInOrdered(hive: seq<BeeStats>, kinds: seq<BeeType>)
    requires forall i, j :: 0 <= i < j < |kinds| ==> Rank(kinds[i]) < Rank(kinds[j])
    ensures Ascending(TallyIn(hive, kinds))
    decreases |kinds|
  {
    if kinds != [] {
      var init, last := kinds[..|kinds| - 1], kinds[|kinds| - 1];
      TallyInOrdered(hive, init);
      TallyInLines(hive, init);
      var a, t := TallyIn(hive, init), TallyIn(hive, kinds);
      assert t == a + GroupOf(hive, last);
      forall i, j | 0 <= i < j < |t|
        ensures Rank(t[i].kind) < Rank(t[j].kind)
      {
        if j >= |a| {
          assert t[j] == GroupOf(hive, last)[j - |a|];
          assert t[j].kind == last;
          assert t[i] == a[i] && a[i] in a;
          var n :| 0 <= n < |init| && init[n] == a[i].kind;
          assert kinds[n] == init[n] && kinds[|kinds| - 1] == last;
          assert Rank(kinds[n]) < Rank(kinds[|kinds| - 1]);
          assert Rank(a[i].kind) < Rank(last);
        } else {
          assert t[i] == a[i] && t[j] == a[j];
          assert Rank(a[i].kind) < Rank(a[j].kind);
        }
      }
    }
  }

  /** Each line lists a kind that has bees, with as many hit points as its count,
      in hive order; a kind appears iff some bee of it is left; and the kinds come
      Queen, Worker, Drone. */
  lemma TallyShape(hive: seq<BeeStats>)
    ensures var t := Tally(hive);
      && (forall g :: g in t ==> g.count > 0 && g.count == |g.hps| && g.hps == HpsOf(hive, g.kind))
      && (forall k :: (exists g :: g in t && g.kind == k) <==> HpsOf(hive, k) != [])
      && Ascending(t)
  {
    TallyInLines(hive, TypeOrder);
    TallyInOrdered(hive, TypeOrder);
    assert Tally(hive) == TallyIn(hive, TypeOrder);
    forall k
      ensures (exists g :: g in Tally(hive) && g.kind == k) <==> HpsOf(hive, k) != []
    {
      assert k in TypeOrder by { assert k == TypeOrder[Rank(k)]; }
      TallyInCovers(hive, TypeOrder, k);
    }
  }

  /** A non-empty hive gives a non-empty list. */
  lemma TallyNonEmpty(hive: seq<BeeStats>)
    ensures Tally(hive) != [] <==> hive != []
  {
    TallyCountsSumToHive(hive);
    if hive == [] {
      KindsPartitionHive(hive);
      TallyShape(hive);
    }
  }

  /** The verdict line of the game-over screen. */
  datatype Verdict = Defeated | Victorious | NoVerdict

  /** What the game-over screen shows: a verdict line, the health left of the
      configured maximum, both counters, and the remaining-bees list, which is
      shown only while bees remain. */
  datatype GameOverScreen = GameOverScreen(
    verdict: Verdict, health: int, maxHealth: int, stings: int, hits: int, remaining: seq<Group>)

  function GameOver(state: GameState, s: Snapshot, cfg: Config): (screen: GameOverScreen)
    ensures screen.verdict == Defeated <==> state == PlayerLose
    ensures screen.verdict == Victorious <==> state == PlayerWin
    ensures screen.remaining != [] <==> s.hive != []
    ensures s.hive != [] ==> screen.remaining == Tally(s.hive)
    ensures screen.health == s.player.hp && screen.maxHealth == cfg.playerHealth
    ensures screen.stings == s.beeStings && screen.hits == s.playerHits
  {
    TallyNonEmpty(s.hive);
    GameOverScreen(
      if state == PlayerLose then Defeated else if state == PlayerWin then Victorious else NoVerdict,
      s.player.hp, cfg.playerHealth, s.beeStings, s.playerHits,
      if |s.hive| > 0 then Tally(s.hive) else [])
  }
}
