/** Log filters: topics, addresses and block ranges (client/rpc-core/src/types/filter.rs). */
module LogFilter {
  import opened Prelude
  import opened Cartesian

  datatype Variadic<+T> = Single(one: T) | Multiple(many: seq<T>) | Null

  type Options = seq<Option<Hash>>
  type FlatTopic = Variadic<Option<Hash>>
  type Topic = Variadic<Option<FlatTopic>>

  // ---- Specification: positional matching ----

  function OptionsOf(entry: Option<FlatTopic>): Options
  {
    match entry
    case None => [None]
    case Some(Single(s)) => [s]
    case Some(Multiple(l)) => l
    case Some(Null) => [None]
  }

  /** The options a filter gives for each topic position; `None` is the wildcard. */
  function Positions(topic: Topic): seq<Options>
  {
    match topic
    case Null => []
    case Single(None) => []
    case Single(Some(flat)) =>
      (match flat
       case Null => []
       case Single(s) => [[s]]
       case Multiple(l) => Singles(l))
    case Multiple(ms) => seq(|ms|, i requires 0 <= i < |ms| => OptionsOf(ms[i]))
  }

  /** A position is satisfied by a wildcard, or by a topic that is among its options. */
  predicate Satisfied(options: Options, topics: seq<Hash>, i: nat)
  {
    None in options || (i < |topics| && Some(topics[i]) in options)
  }

  predicate Positional(pos: seq<Options>, topics: seq<Hash>)
  {
    forall i :: 0 <= i < |pos| ==> Satisfied(pos[i], topics, i)
  }

  /** What one entry of a topic list asks of the log. */
  predicate EntryAccepts(entry: Option<FlatTopic>, topics: seq<Hash>, i: nat)
  {
    match entry
    case None => true
    case Some(Null) => true
    case Some(Single(s)) => s.Some? ==> i < |topics| && topics[i] == s.value
    case Some(Multiple(l)) =>
      exists k :: 0 <= k < |l| && (l[k].Some? ==> i < |topics| && topics[i] == l[k].value)
  }

  /** What a filter, as the client sent it, asks of the topics of a log. */
  predicate Accepts(topic: Topic, topics: seq<Hash>)
  {
    match topic
    case Null => true
    case Single(None) => true
    case Single(Some(Null)) => true
    case Single(Some(Single(s))) => s.Some? ==> topics != [] && topics[0] == s.value
    case Single(Some(Multiple(l))) =>
      forall i :: 0 <= i < |l| && l[i].Some? ==> i < |topics| && topics[i] == l[i].value
    case Multiple(ms) => forall i :: 0 <= i < |ms| ==> EntryAccepts(ms[i], topics, i)
  }

  lemma {:induction false} EntrySatisfied(entry: Option<FlatTopic>, topics: seq<Hash>, i: nat)
    ensures Satisfied(OptionsOf(entry), topics, i) == EntryAccepts(entry, topics, i)
  {
    if entry.Some? && entry.value.Multiple? {
      var l := entry.value.many;
      if None in l {
        var k :| 0 <= k < |l| && l[k] == None;
      } else if i < |topics| && Some(topics[i]) in l {
        var k :| 0 <= k < |l| && l[k] == Some(topics[i]);
      }
    }
  }

  lemma {:induction false} OneOption(s: Option<Hash>, topics: seq<Hash>, i: nat)
    ensures Satisfied([s], topics, i) <==> (s.Some? ==> i < |topics| && topics[i] == s.value)
  {
    assert forall x :: x in [s] <==> x == s;
  }

  /** Positional matching of the positions is what the filter asks for. */
  lemma {:induction false} PositionalAccepts(topic: Topic, topics: seq<Hash>)
    ensures Positional(Positions(topic), topics) == Accepts(topic, topics)
  {
    var pos := Positions(topic);
    match topic
    case Multiple(ms) =>
      forall i | 0 <= i < |ms| ensures Satisfied(pos[i], topics, i) == EntryAccepts(ms[i], topics, i) {
        EntrySatisfied(ms[i], topics, i);
      }
    case Single(Some(Single(s))) =>
      assert pos == [[s]];
      assert Positional(pos, topics) <==> Satisfied(pos[0], topics, 0);
      OneOption(s, topics, 0);
    case Single(Some(Multiple(l))) =>
      forall i | 0 <= i < |l|
        ensures Satisfied(pos[i], topics, i) <==> (l[i].Some? ==> i < |topics| && topics[i] == l[i].value)
      {
        assert pos[i] == [l[i]];
        OneOption(l[i], topics, i);
      }
    case _ =>
  }

  // ---- The compiled form ----

  /** Drop trailing wildcards. */
  function Trim(p: Options): (t: Options)
    ensures t <= p
    ensures t != [] ==> Last(t).Some?
    ensures forall i :: |t| <= i < |p| ==> p[i].None?
  {
    if p != [] && Last(p).None? then Trim(Init(p)) else p
  }

  /** The topics begin with `p`, wildcards standing for whatever the log has there. */
  predicate Prefix(topics: seq<Hash>, p: Options)
  {
    |p| <= |topics| && forall i :: 0 <= i < |p| && p[i].Some? ==> p[i].value == topics[i]
  }

  function Wrap(perms: seq<Options>): (r: seq<FlatTopic>)
    ensures |r| == |perms| && forall i :: 0 <= i < |r| ==> r[i] == Multiple(perms[i])
  {
    seq(|perms|, i requires 0 <= i < |perms| => Multiple(perms[i]))
  }

  function Flatten(topic: Topic): seq<FlatTopic>
  {
    match topic
    case Null => [Null]
    case Single(None) => []
    case Single(Some(flat)) => [flat]
    case Multiple(_) => Wrap(Product(Positions(topic)))
  }

  /** The verdict of the matching loop on the flat topics left, given the flag so far. */
  function Verdict(flat: seq<FlatTopic>, topics: seq<Hash>, out: bool): bool
  {
    if flat == [] then out
    else
      match flat[0]
      case Null => Verdict(flat[1..], topics, true)
      case Single(s) => Verdict(flat[1..], topics, out && (s.None? || [s.value] <= topics))
      case Multiple(m) =>
        var t := Trim(m);
        if |t| > |topics| then false
        else if t == [] then Verdict(flat[1..], topics, out)
        else Prefix(topics, t) || Verdict(flat[1..], topics, false)
  }

  function FilterTopics(topic: Topic, topics: seq<Hash>): bool
  {
    Verdict(Flatten(topic), topics, true)
  }

  // ---- How the loop decides over the products ----

  /** A product that matches: it is reached unless a longer-than-the-log product comes first. */
  predicate Matches(p: Options, topics: seq<Hash>)
  {
    Trim(p) != [] && Prefix(topics, Trim(p))
  }

  lemma {:induction false} VerdictAccepts(perms: seq<Options>, topics: seq<Hash>, out: bool, k: nat)
    requires k < |perms| && Matches(perms[k], topics)
    requires forall j :: 0 <= j < k ==> |Trim(perms[j])| <= |topics|
    ensures Verdict(Wrap(perms), topics, out)
  {
    assert Wrap(perms)[1..] == Wrap(perms[1..]);
    if k > 0 {
      assert |Trim(perms[0])| <= |topics|;
      VerdictAccepts(perms[1..], topics, out, k - 1);
      VerdictAccepts(perms[1..], topics, false, k - 1);
    }
  }

  lemma {:induction false} VerdictRejects(perms: seq<Options>, topics: seq<Hash>, out: bool, k: nat)
    requires k < |perms| && |Trim(perms[k])| > |topics|
    requires forall j :: 0 <= j < k ==> !Matches(perms[j], topics)
    ensures !Verdict(Wrap(perms), topics, out)
  {
    assert Wrap(perms)[1..] == Wrap(perms[1..]);
    if k > 0 {
      assert !Matches(perms[0], topics);
      VerdictRejects(perms[1..], topics, out, k - 1);
      VerdictRejects(perms[1..], topics, false, k - 1);
    }
  }

  /** The loop accepts only if a product matches, or if it never lowered its flag. */
  lemma {:induction false} VerdictSound(perms: seq<Options>, topics: seq<Hash>, out: bool)
    requires Verdict(Wrap(perms), topics, out)
    ensures (exists k :: 0 <= k < |perms| && Matches(perms[k], topics))
            || (out && forall k :: 0 <= k < |perms| ==> Trim(perms[k]) == [])
  {
    if perms != [] {
      assert Wrap(perms)[1..] == Wrap(perms[1..]);
      var t := Trim(perms[0]);
      if !Matches(perms[0], topics) {
        var next := out && t == [];
        VerdictSound(perms[1..], topics, next);
        if k :| 0 <= k < |perms[1..]| && Matches(perms[1..][k], topics) {
          assert perms[k + 1] == perms[1..][k];
        } else {
          forall k | 0 <= k < |perms| ensures Trim(perms[k]) == [] {
            if k > 0 {
              assert perms[k] == perms[1..][k - 1];
            }
          }
        }
      }
    }
  }

  lemma {:induction false} VerdictIdle(perms: seq<Options>, topics: seq<Hash>)
    requires forall k :: 0 <= k < |perms| ==> Trim(perms[k]) == []
    ensures Verdict(Wrap(perms), topics, true)
  {
    if perms != [] {
      assert Wrap(perms)[1..] == Wrap(perms[1..]);
      assert Trim(perms[0]) == [];
      VerdictIdle(perms[1..], topics);
    }
  }

  // ---- Products and positions ----

  predicate IsPick(pos: seq<Options>, p: Options)
  {
    |p| == |pos| && forall i :: 0 <= i < |p| ==> p[i] in pos[i]
  }

  predicate NonEmpty(pos: seq<Options>)
  {
    forall i :: 0 <= i < |pos| ==> pos[i] != []
  }

  lemma {:induction false} SizePositive(pos: seq<Options>)
    requires NonEmpty(pos)
    ensures Size(pos) > 0
  {
    if pos != [] {
      SizePositive(Init(pos));
      MulMonotone(|Last(pos)|, 1, Size(Init(pos)));
    }
  }

  lemma {:induction false} SizeZero(pos: seq<Options>, i: nat)
    requires i < |pos| && pos[i] == []
    ensures Size(pos) == 0
  {
    if i < |pos| - 1 {
      SizeZero(Init(pos), i);
    }
  }

  lemma {:induction false} ProductIsPick(pos: seq<Options>, n: nat)
    requires pos != [] && n < |Product(pos)|
    ensures IsPick(pos, Product(pos)[n])
  {
    ProductSize(pos);
    ProductAt(pos, n);
  }

  function IndexOf(l: Options, x: Option<Hash>): (i: nat)
    requires x in l
    ensures i < |l| && l[i] == x
  {
    if l[0] == x then 0 else 1 + IndexOf(l[1..], x)
  }

  /** Every pick is one of the products. */
  lemma {:induction false} PickInProduct(pos: seq<Options>, p: Options) returns (n: nat)
    requires pos != [] && IsPick(pos, p)
    ensures n < |Product(pos)| && Product(pos)[n] == p
  {
    var c := seq<nat>(|pos|, i requires 0 <= i < |pos| => IndexOf(pos[i], p[i]));
    n := Rank(pos, c);
    ChoiceOfRank(pos, c);
    ProductSize(pos);
    ProductAt(pos, n);
    assert Pick(pos, c) == p;
  }

  // ---- When the compiled form is the positional one ----

  /** One past the last position that has no wildcard among its options. */
  function StrictLength(pos: seq<Options>): (n: nat)
    ensures n <= |pos|
    ensures n > 0 ==> None !in pos[n - 1]
    ensures forall i :: n <= i < |pos| ==> None in pos[i]
  {
    if pos == [] then 0
    else if None in Last(pos) then StrictLength(Init(pos))
    else |pos|
  }

  predicate OnlyWildcards(l: Options)
  {
    forall i :: 0 <= i < |l| ==> l[i].None?
  }

  /** The first option already stands for all of them. */
  predicate FirstSuffices(l: Options)
  {
    l != [] && (l[0].None? || forall i :: 0 <= i < |l| ==> l[i] == l[0])
  }

  /** No option is offered beyond the last strict position. */
  predicate NoLooseOption(pos: seq<Options>)
  {
    forall i :: StrictLength(pos) <= i < |pos| ==> OnlyWildcards(pos[i])
  }

  /** The first product of all is short and matches whenever anything does. */
  predicate FirstProductDecides(pos: seq<Options>)
  {
    var n := StrictLength(pos);
    && n > 0
    && (forall i :: 0 <= i < n ==> FirstSuffices(pos[i]))
    && (forall i :: n <= i < |pos| ==> pos[i] != [] && pos[i][0].None?)
  }

  /** The filters on which the compiled matcher is positional matching. */
  predicate Exact(pos: seq<Options>)
  {
    NonEmpty(pos) && (NoLooseOption(pos) || FirstProductDecides(pos))
  }

  /** The documented, unmixed filters: each or-list is non-empty and holds no wildcard beside other options. */
  predicate Unmixed(pos: seq<Options>)
  {
    forall i :: 0 <= i < |pos| ==> pos[i] != [] && (OnlyWildcards(pos[i]) || None !in pos[i])
  }

  lemma {:induction false} UnmixedIsExact(pos: seq<Options>)
    requires Unmixed(pos)
    ensures Exact(pos)
  {
  }

  /** On non-empty or-lists the matcher never accepts what positional matching rejects. */
  lemma {:induction false} CompiledIsSound(pos: seq<Options>, topics: seq<Hash>)
    requires pos != [] && NonEmpty(pos)
    requires Verdict(Wrap(Product(pos)), topics, true)
    ensures Positional(pos, topics)
  {
    var perms := Product(pos);
    VerdictSound(perms, topics, true);
    if k :| 0 <= k < |perms| && Matches(perms[k], topics) {
      ProductIsPick(pos, k);
      forall i | 0 <= i < |pos| ensures Satisfied(pos[i], topics, i) {
        assert perms[k][i] in pos[i];
        var t := Trim(perms[k]);
        if i < |t| {
          assert t[i] == perms[k][i];
        }
      }
    } else {
      forall i | 0 <= i < |pos| ensures Satisfied(pos[i], topics, i) {
        var p := seq(|pos|, j requires 0 <= j < |pos| => pos[j][0]);
        var n := PickInProduct(pos, p);
        assert p[i].None? && p[i] in pos[i];
      }
    }
  }

  /** The pick that follows the log: its own topic where it is an option, else the wildcard. */
  function BestPick(pos: seq<Options>, topics: seq<Hash>): (p: Options)
    requires Positional(pos, topics)
    ensures IsPick(pos, p)
    ensures forall i :: 0 <= i < |p| && p[i].Some? ==> i < |topics| && p[i].value == topics[i]
  {
    seq(|pos|, i requires 0 <= i < |pos| =>
      assert Satisfied(pos[i], topics, i);
      if i < |topics| && Some(topics[i]) in pos[i] then Some(topics[i]) else None)
  }

  lemma {:induction false} TrimLength(p: Options, n: nat)
    requires n <= |p| && (n > 0 ==> p[n - 1].Some?)
    requires forall i :: n <= i < |p| ==> p[i].None?
    ensures |Trim(p)| == n
  {
  }

  lemma {:induction false} PositionalReaches(pos: seq<Options>, topics: seq<Hash>)
    requires Positional(pos, topics)
    ensures StrictLength(pos) <= |topics|
  {
    var n := StrictLength(pos);
    if n > 0 {
      assert Satisfied(pos[n - 1], topics, n - 1);
    }
  }

  lemma {:induction false} CompleteWithoutLooseOptions(pos: seq<Options>, topics: seq<Hash>)
    requires pos != [] && NonEmpty(pos) && NoLooseOption(pos) && Positional(pos, topics)
    ensures Verdict(Wrap(Product(pos)), topics, true)
  {
    var perms, n := Product(pos), StrictLength(pos);
    PositionalReaches(pos, topics);
    forall k | 0 <= k < |perms| ensures |Trim(perms[k])| == n {
      ProductIsPick(pos, k);
      assert forall i :: n <= i < |pos| ==> perms[k][i] in pos[i];
      assert n > 0 ==> perms[k][n - 1] in pos[n - 1];
      TrimLength(perms[k], n);
    }
    if n == 0 {
      VerdictIdle(perms, topics);
    } else {
      var p := BestPick(pos, topics);
      var k := PickInProduct(pos, p);
      assert Matches(perms[k], topics);
      VerdictAccepts(perms, topics, true, k);
    }
  }

  lemma {:induction false} ZeroRank(pos: seq<Options>, c: seq<nat>)
    requires IsChoice(pos, c) && forall i :: 0 <= i < |c| ==> c[i] == 0
    ensures Rank(pos, c) == 0
  {
    if pos != [] {
      ZeroRank(Init(pos), Init(c));
    }
  }

  /** The first product picks the first option everywhere. */
  lemma {:induction false} FirstProduct(pos: seq<Options>)
    requires pos != [] && NonEmpty(pos)
    ensures |Product(pos)| > 0
    ensures Product(pos)[0] == seq(|pos|, i requires 0 <= i < |pos| => pos[i][0])
  {
    var zeros := seq<nat>(|pos|, i => 0);
    SizePositive(pos);
    ProductSize(pos);
    ProductAt(pos, 0);
    ZeroRank(pos, zeros);
    ChoiceOfRank(pos, zeros);
  }

  lemma {:induction false} CompleteWhenFirstDecides(pos: seq<Options>, topics: seq<Hash>)
    requires pos != [] && NonEmpty(pos) && FirstProductDecides(pos) && Positional(pos, topics)
    ensures Verdict(Wrap(Product(pos)), topics, true)
  {
    var n := StrictLength(pos);
    PositionalReaches(pos, topics);
    FirstProduct(pos);
    var p := Product(pos)[0];
    assert FirstSuffices(pos[n - 1]) && p[n - 1] in pos[n - 1];
    TrimLength(p, n);
    forall i | 0 <= i < n && p[i].Some? ensures p[i].value == topics[i] {
      assert FirstSuffices(pos[i]);
      assert Satisfied(pos[i], topics, i);
      assert p[i] == pos[i][0];
      var j :| 0 <= j < |pos[i]| && pos[i][j] == Some(topics[i]);
      assert pos[i][j] == pos[i][0];
    }
    assert Matches(p, topics);
    VerdictAccepts(Product(pos), topics, true, 0);
  }

  /** On an exact filter the compiled matcher is positional matching, for every log. */
  lemma {:induction false} ExactIsPositional(pos: seq<Options>, topics: seq<Hash>)
    requires pos != [] && Exact(pos)
    ensures Verdict(Wrap(Product(pos)), topics, true) == Positional(pos, topics)
  {
    if Verdict(Wrap(Product(pos)), topics, true) {
      CompiledIsSound(pos, topics);
    }
    if Positional(pos, topics) {
      if NoLooseOption(pos) {
        CompleteWithoutLooseOptions(pos, topics);
      } else {
        CompleteWhenFirstDecides(pos, topics);
      }
    }
  }

  // ---- Every other filter mistreats some log ----

  /** A topic the position accepts, though not through its first option. */
  ghost function Awkward(l: Options): (h: Hash)
    requires l != [] && !FirstSuffices(l)
    ensures l[0].Some? && l[0] != Some(h) && (None in l || Some(h) in l)
  {
    var i :| 0 <= i < |l| && l[i] != l[0];
    if l[i].Some? then l[i].value else l[0].value + 1
  }

  /** A log of `n` topics that satisfies the first `n` positions, awkwardly where possible. */
  ghost function AwkwardLog(pos: seq<Options>, n: nat): (topics: seq<Hash>)
    requires NonEmpty(pos) && n <= |pos|
    ensures |topics| == n
    ensures forall i :: 0 <= i < n ==> Satisfied(pos[i], topics, i)
    ensures forall i :: 0 <= i < n && !FirstSuffices(pos[i]) ==> pos[i][0].Some? && pos[i][0].value != topics[i]
  {
    var topics := seq<Hash>(n, i requires 0 <= i < n =>
      if FirstSuffices(pos[i]) then (if pos[i][0].Some? then pos[i][0].value else 0) else Awkward(pos[i]));
    topics
  }

  lemma {:induction false} AwkwardLogIsPositional(pos: seq<Options>)
    requires NonEmpty(pos)
    ensures Positional(pos, AwkwardLog(pos, StrictLength(pos)))
  {
  }

  lemma {:induction false} TrimReaches(p: Options, i: nat)
    requires i < |p| && p[i].Some?
    ensures |Trim(p)| > i
  {
  }

  /** All products before one that starts with first options start with first options too. */
  lemma {:induction false} EarlierProducts(pos: seq<Options>, c: seq<nat>, n: nat, m: nat, i: nat)
    requires pos != [] && IsChoice(pos, c) && m < Rank(pos, c)
    requires n <= |c| && (forall j :: 0 <= j < n ==> c[j] == 0) && i < n
    ensures m < |Product(pos)| && |Product(pos)[m]| == |pos| && Product(pos)[m][i] == pos[i][0]
  {
    ProductSize(pos);
    ProductAt(pos, m);
    ChoicesInOrder(pos, m, Rank(pos, c));
    ChoiceOfRank(pos, c);
    ZeroPrefix(Choice(pos, m), c, n, i);
  }

  lemma {:induction false} MismatchAt(p: Options, topics: seq<Hash>, i: nat)
    requires i < |p| && i < |topics| && p[i].Some? && p[i].value != topics[i]
    ensures !Matches(p, topics)
  {
    TrimReaches(p, i);
    assert Trim(p)[i] == p[i];
  }

  /** The product that picks option `o` at position `j` and first options elsewhere. */
  lemma {:induction false} LooseProduct(pos: seq<Options>, j: nat, o: nat) returns (c: seq<nat>)
    requires pos != [] && NonEmpty(pos) && j < |pos| && o < |pos[j]| && pos[j][o].Some?
    ensures IsChoice(pos, c) && forall i :: 0 <= i < |c| && i != j ==> c[i] == 0
    ensures Rank(pos, c) < |Product(pos)| && |Trim(Product(pos)[Rank(pos, c)])| > j
  {
    c := seq<nat>(|pos|, i => 0)[j := o];
    ProductSize(pos);
    ProductAt(pos, Rank(pos, c));
    ChoiceOfRank(pos, c);
    TrimReaches(Product(pos)[Rank(pos, c)], j);
  }

  lemma {:induction false} LooseOptionRejected(pos: seq<Options>, topics: seq<Hash>, j: nat, o: nat)
    requires pos != [] && NonEmpty(pos)
    requires StrictLength(pos) == |topics| <= j < |pos| && o < |pos[j]| && pos[j][o].Some?
    requires |topics| == 0 || exists i :: 0 <= i < |topics| && pos[i][0].Some? && pos[i][0].value != topics[i]
    ensures !Verdict(Wrap(Product(pos)), topics, true)
  {
    var c := LooseProduct(pos, j, o);
    var perms, k := Product(pos), Rank(pos, c);
    if |topics| > 0 {
      var i :| 0 <= i < |topics| && pos[i][0].Some? && pos[i][0].value != topics[i];
      forall m | 0 <= m < k ensures !Matches(perms[m], topics) {
        EarlierProducts(pos, c, |topics|, m, i);
        MismatchAt(perms[m], topics, i);
      }
    }
    VerdictRejects(perms, topics, true, k);
  }

  lemma {:induction false} LooseFirstOptionRejected(pos: seq<Options>, topics: seq<Hash>, j: nat)
    requires pos != [] && NonEmpty(pos) && |topics| <= j < |pos| && pos[j][0].Some?
    ensures !Verdict(Wrap(Product(pos)), topics, true)
  {
    FirstProduct(pos);
    TrimReaches(Product(pos)[0], j);
    VerdictRejects(Product(pos), topics, true, 0);
  }

  lemma {:induction false} EmptyOrListAcceptsAll(pos: seq<Options>, topics: seq<Hash>, i: nat)
    requires i < |pos| && pos[i] == []
    ensures Verdict(Wrap(Product(pos)), topics, true) && !Positional(pos, topics)
  {
    SizeZero(pos, i);
    ProductSize(pos);
    assert !Satisfied(pos[i], topics, i);
  }

  /** A filter that is not exact mistreats some log. */
  lemma {:induction false} InexactFails(pos: seq<Options>) returns (topics: seq<Hash>)
    requires pos != [] && !Exact(pos)
    ensures Verdict(Wrap(Product(pos)), topics, true) != Positional(pos, topics)
  {
    if i :| 0 <= i < |pos| && pos[i] == [] {
      topics := [];
      EmptyOrListAcceptsAll(pos, topics, i);
    } else {
      var n := StrictLength(pos);
      topics := AwkwardLog(pos, n);
      AwkwardLogIsPositional(pos);
      var j :| n <= j < |pos| && !OnlyWildcards(pos[j]);
      var o :| 0 <= o < |pos[j]| && !pos[j][o].None?;
      if f :| n <= f < |pos| && pos[f][0].Some? {
        LooseFirstOptionRejected(pos, topics, f);
      } else if n > 0 {
        var i :| 0 <= i < n && !FirstSuffices(pos[i]);
        LooseOptionRejected(pos, topics, j, o);
      } else {
        LooseOptionRejected(pos, topics, j, o);
      }
    }
  }

  // ---- The theorem ----

  lemma {:induction false} SingleList(l: Options, topics: seq<Hash>)
    ensures Verdict([Multiple(l)], topics, true) == Positional(Singles(l), topics)
  {
    var pos, t := Singles(l), Trim(l);
    assert forall i :: 0 <= i < |l| ==>
      (Satisfied(pos[i], topics, i) <==> l[i].None? || (i < |topics| && l[i] == Some(topics[i])));
    if |t| > |topics| {
      assert !Satisfied(pos[|t| - 1], topics, |t| - 1);
    } else if t != [] && !Prefix(topics, t) {
      var i :| 0 <= i < |t| && t[i].Some? && t[i].value != topics[i];
      assert !Satisfied(pos[i], topics, i);
    }
  }

  lemma {:induction false} SingleTopic(topic: Topic, topics: seq<Hash>)
    requires !topic.Multiple?
    ensures FilterTopics(topic, topics) == Positional(Positions(topic), topics)
    ensures Exact(Positions(topic))
  {
    var pos := Positions(topic);
    UnmixedIsExact(pos);
    if topic.Single? && topic.one.Some? {
      var flat := topic.one.value;
      var only: seq<FlatTopic> := [flat];
      assert only[1..] == [];
      if flat.Single? {
        var s := flat.one;
        assert Verdict(only, topics, true) == (s.None? || [s.value] <= topics);
        assert |pos| == 1 && pos[0] == [s];
        assert Positional(pos, topics) == Satisfied(pos[0], topics, 0);
        assert s.Some? ==> ([s.value] <= topics <==> |topics| > 0 && topics[0] == s.value);
      } else if flat.Multiple? {
        SingleList(flat.many, topics);
      } else {
        assert Verdict(only, topics, true) == Verdict(only[1..], topics, true);
      }
    } else if topic.Null? {
      var nothing: seq<FlatTopic> := [Null];
      assert Flatten(topic) == nothing && nothing[1..] == [];
      assert Verdict(nothing, topics, true) == Verdict(nothing[1..], topics, true);
    }
  }

  lemma {:induction false} PositionalExactly(topic: Topic)
    ensures (forall topics :: FilterTopics(topic, topics) == Positional(Positions(topic), topics))
            <==> Exact(Positions(topic))
  {
    var pos := Positions(topic);
    if !topic.Multiple? {
      forall topics ensures FilterTopics(topic, topics) == Positional(pos, topics) {
        SingleTopic(topic, topics);
      }
      SingleTopic(topic, []);
    } else if pos != [] {
      if Exact(pos) {
        forall topics ensures FilterTopics(topic, topics) == Positional(pos, topics) {
          ExactIsPositional(pos, topics);
        }
      } else {
        var topics := InexactFails(pos);
        assert FilterTopics(topic, topics) != Positional(pos, topics);
      }
    }
  }

  /**
   * `filter_topics` accepts on every log what the filter asks for exactly when the filter is `Exact`: no empty
   * or-list, and either no loose option or a first product that decides.
   */
  lemma {:induction false} TopicFilterExact(topic: Topic)
    ensures (forall topics :: FilterTopics(topic, topics) == Accepts(topic, topics)) <==> Exact(Positions(topic))
  {
    forall topics ensures Positional(Positions(topic), topics) == Accepts(topic, topics) {
      PositionalAccepts(topic, topics);
    }
    PositionalExactly(topic);
  }

  /** In particular on every documented, unmixed filter. */
  lemma {:induction false} UnmixedTopicFilter(topic: Topic, topics: seq<Hash>)
    requires Unmixed(Positions(topic))
    ensures FilterTopics(topic, topics) == Accepts(topic, topics)
  {
    UnmixedIsExact(Positions(topic));
    TopicFilterExact(topic);
  }

  /** The documented form `[null, [null, C]]` refuses a log it should accept: one without topics. */
  lemma {:induction false} MixedOrListRefusesShortLog(c: Hash)
    ensures var topic := Multiple([None, Some(Multiple([None, Some(c)]))]);
            !FilterTopics(topic, []) && Positional(Positions(topic), []) && !Exact(Positions(topic))
  {
    var topic: Topic := Multiple([None, Some(Multiple([None, Some(c)]))]);
    var pos := Positions(topic);
    assert |pos| == 2 && pos[0] == [None] && pos[1] == [None, Some(c)];
    assert None in pos[0] && None in pos[1] && pos[1][1].Some?;
    assert NonEmpty(pos);
    LooseOptionRejected(pos, [], 1, 1);
    if Exact(pos) {
      ExactIsPositional(pos, []);
    }
  }

  // ---- The code ----

  /** The or-list of each position. */
  method OptionLists(multi: seq<Option<FlatTopic>>) returns (lists: seq<Options>)
    ensures |lists| == |multi| && forall i :: 0 <= i < |multi| ==> lists[i] == OptionsOf(multi[i])
  {
    lists := [];
    for i := 0 to |multi|
      invariant |lists| == i && forall j :: 0 <= j < i ==> lists[j] == OptionsOf(multi[j])
    {
      match multi[i] {
        case None => lists := lists + [[None]];
        case Some(Single(s)) => lists := lists + [[s]];
        case Some(Multiple(l)) => lists := lists + [l];
        case Some(Null) => lists := lists + [[None]];
      }
    }
  }

  method WrapAll(perms: seq<Options>) returns (out: seq<FlatTopic>)
    ensures out == Wrap(perms)
  {
    out := [];
    for k := 0 to |perms|
      invariant |out| == k && forall j :: 0 <= j < k ==> out[j] == Multiple(perms[j])
    {
      out := out + [Multiple(perms[k])];
    }
  }

  method ComputeFlatten(topic: Topic) returns (out: seq<FlatTopic>)
    ensures out == Flatten(topic)
  {
    out := [];
    match topic
    case Multiple(multi) =>
      var lists := OptionLists(multi);
      assert lists == Positions(topic);
      var perms := ComputeProduct(lists);
      out := WrapAll(perms);
    case Single(single) =>
      if single.Some? {
        out := [single.value];
      }
    case Null =>
      out := [Null];
  }

  /** Replace wildcards by the log's own topics; it never looks past the end of the log. */
  method Replace(topics: seq<Hash>, multi: Options) returns (r: Option<seq<Hash>>)
    requires |multi| <= |topics|
    ensures multi == [] ==> r.None?
    ensures multi != [] ==>
              && r.Some? && |r.value| == |multi|
              && forall k :: 0 <= k < |multi| ==> r.value[k] == if multi[k].Some? then multi[k].value else topics[k]
  {
    var out: seq<Hash> := [];
    for k := 0 to |multi|
      invariant |out| == k
      invariant forall j :: 0 <= j < k ==> out[j] == if multi[j].Some? then multi[j].value else topics[j]
    {
      if multi[k].Some? {
        out := out + [multi[k].value];
      } else {
        out := out + [topics[k]];
      }
    }
    return if |out| == 0 then None else Some(out);
  }

  method MatchTopics(flat: seq<FlatTopic>, topics: seq<Hash>) returns (out: bool)
    ensures out == Verdict(flat, topics, true)
  {
    out := true;
    for i := 0 to |flat|
      invariant Verdict(flat, topics, true) == Verdict(flat[i..], topics, out)
    {
      assert flat[i..][1..] == flat[i + 1..];
      match flat[i]
      case Single(single) =>
        if single.Some? && !([single.value] <= topics) {
          out := false;
        }
      case Multiple(multi) =>
        var shrunk := multi;
        while shrunk != [] && Last(shrunk).None?
          invariant Trim(shrunk) == Trim(multi)
          decreases |shrunk|
        {
          shrunk := Init(shrunk);
        }
        if |shrunk| > |topics| {
          return false;
        }
        var replaced := Replace(topics, shrunk);
        if replaced.Some? {
          out := false;
          assert replaced.value <= topics <==> Prefix(topics, shrunk);
          if replaced.value <= topics {
            return true;
          }
        }
      case Null =>
        out := true;
    }
  }

  // ---- Whole filters ----

  datatype BlockNumber = ByHash(hash: Hash) | Num(number: nat) | Latest | Earliest | PendingBlock
  {
    function ToMinBlockNum(): Option<nat> { if Num? then Some(number) else None }
  }

  datatype Filter = Filter(
    fromBlock: Option<BlockNumber>, toBlock: Option<BlockNumber>, blockHash: Option<Hash>,
    address: Option<Variadic<Address>>, topics: Option<Topic>)

  /** A filter with its topics compiled. */
  datatype FilteredParams = FilteredParams(filter: Option<Filter>, flatTopics: seq<FlatTopic>)

  function Compiled(f: Option<Filter>): FilteredParams
  {
    FilteredParams(f, if f.Some? && f.value.topics.Some? then Flatten(f.value.topics.value) else [])
  }

  predicate AddressWanted(wanted: Option<Variadic<Address>>, address: Address)
  {
    match wanted
    case None => true
    case Some(Single(a)) => address == a
    case Some(Multiple(l)) => address in l
    case Some(Null) => true
  }

  predicate TopicsWanted(wanted: Option<Topic>, topics: seq<Hash>)
  {
    wanted.Some? ==> FilterTopics(wanted.value, topics)
  }

  predicate RangeWanted(f: Filter, number: nat)
  {
    && (f.fromBlock.Some? && f.fromBlock.value.Num? ==> f.fromBlock.value.number <= number)
    && (f.toBlock.Some? && f.toBlock.value.Num? ==> number <= f.toBlock.value.number)
    && !(f.toBlock.Some? && f.toBlock.value.Earliest?)
  }

  predicate HashWanted(f: Filter, blockHash: Hash)
  {
    f.blockHash.Some? ==> f.blockHash.value == blockHash
  }

  /** `filter_block_range`: a numeric bound excludes the numbers beyond it, and `earliest` as end excludes all. */
  method FilterBlockRange(f: Filter, number: nat) returns (out: bool)
    ensures out <==>
              && (forall n: nat :: f.fromBlock == Some(Num(n)) ==> n <= number)
              && (forall n: nat :: f.toBlock == Some(Num(n)) ==> number <= n)
              && f.toBlock != Some(Earliest)
    ensures out == RangeWanted(f, number)
  {
    out := true;
    if f.fromBlock.Some? {
      match f.fromBlock.value
      case Num(n) =>
        if n > number {
          out := false;
        }
      case _ =>
    }
    if f.toBlock.Some? {
      match f.toBlock.value
      case Num(n) =>
        if n < number {
          out := false;
        }
      case Earliest =>
        out := false;
      case _ =>
    }
  }

  /** `filter_block_hash`: only a filter that names another hash refuses. */
  method FilterBlockHash(f: Filter, blockHash: Hash) returns (out: bool)
    ensures !out <==> exists h :: f.blockHash == Some(h) && h != blockHash
    ensures out == HashWanted(f, blockHash)
  {
    if f.blockHash.Some? {
      if f.blockHash.value != blockHash {
        return false;
      }
    }
    return true;
  }

  /** `filter_address`: only a filter that names addresses, none of them this one, refuses. */
  method FilterAddress(wanted: Option<Variadic<Address>>, address: Address) returns (out: bool)
    ensures !out <==>
              || (exists a :: wanted == Some(Single(a)) && a != address)
              || (exists l :: wanted == Some(Multiple(l)) && forall i :: 0 <= i < |l| ==> l[i] != address)
    ensures out == AddressWanted(wanted, address)
  {
    if wanted.Some? {
      match wanted.value
      case Single(a) =>
        if address != a {
          return false;
        }
      case Multiple(l) =>
        if address !in l {
          return false;
        }
      case Null =>
        return true;
    }
    return true;
  }
}
