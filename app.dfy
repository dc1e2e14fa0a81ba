/**
 * The game bookkeeping of the counter: the players with their running
 * scores and turn records, whose turn it is, the last two photos of the
 * board, the history of turns, and the score shown in the manual score box.
 */
module App {

  import opened Wrappers
  import opened Text

  datatype TurnKind = Play | Swap

  /** A record in a player's `turns`: its number in the game, the points, the photo of a play. */
  datatype Turn = Turn(turnNumber: nat, score: int, photo: Option<string>, kind: TurnKind)

  /** An entry of `turnHistory`; a play entry carries the photo and no `type`, a swap entry the type `swap` and no photo. */
  datatype HistoryEntry = HistoryEntry(playerIndex: nat, score: int, photo: Option<string>, kind: Option<TurnKind>)

  datatype Player = Player(name: string, score: int, turns: seq<Turn>)

  /** A photo of the board: its object URL and its JPEG data URL. */
  datatype Photo = Photo(url: string, imageData: string)

  // ---------------------------------------------------------------------------
  // Starting a game
  // ---------------------------------------------------------------------------

  const MinPlayers: nat := 2

  /** The name given to player `i` (counted from 0) when its box is left blank. */
  function DefaultName(i: nat): string {
    "Player " + NatToString(i + 1)
  }

  /** `input.value.trim() || \`Player ${index + 1}\``. */
  function PlayerName(input: string, i: nat): (name: string)
    ensures name != ""
    ensures name == Trim(input) || name == DefaultName(i)
  {
    var t := Trim(input);
    if t != "" then t else DefaultName(i)
  }

  /** A name is the trimmed input unless the input is all white space, and then the default name; never empty. */
  lemma PlayerNameChoice(input: string, i: nat)
    ensures PlayerName(input, i) != ""
    ensures (forall k | 0 <= k < |input| :: IsJsSpace(input[k])) ==> PlayerName(input, i) == DefaultName(i)
    ensures !(forall k | 0 <= k < |input| :: IsJsSpace(input[k])) ==> PlayerName(input, i) == Trim(input)
  {
    TrimEmpty(input);
  }

  /** Blank boxes at different positions get different default names. */
  lemma DefaultNamesDistinct(i: nat, j: nat)
    ensures DefaultName(i) == DefaultName(j) <==> i == j
  {
    if DefaultName(i) == DefaultName(j) {
      assert DefaultName(i)[7..] == NatToString(i + 1);
      assert DefaultName(j)[7..] == NatToString(j + 1);
      NatToStringInjective(i + 1, j + 1);
    }
  }

  /** The players `startGame` builds from the name boxes: named, at 0 points, without turns. */
  function StartingPlayers(names: seq<string>): (ps: seq<Player>)
    ensures |ps| == |names|
  {
    if names == [] then []
    else
      var n := |names| - 1;
      StartingPlayers(names[..n]) + [Player(PlayerName(names[n], n), 0, [])]
  }

  /** Player `i` is named from box `i`. */
  lemma {:induction false} StartingPlayerAt(names: seq<string>, i: nat)
    requires i < |names|
    ensures StartingPlayers(names)[i] == Player(PlayerName(names[i], i), 0, [])
  {
    var n := |names| - 1;
    if i < n {
      StartingPlayerAt(names[..n], i);
    }
  }

  // ---------------------------------------------------------------------------
  // Totals over the players and the history
  // ---------------------------------------------------------------------------

  function ScoreOf(p: Player): int {
    p.score
  }

  function TurnCount(p: Player): int {
    |p.turns|
  }

  /** The sum of `f` over the players. */
  function Total(ps: seq<Player>, f: Player -> int): int {
    if ps == [] then 0 else Total(ps[..|ps| - 1], f) + f(ps[|ps| - 1])
  }

  /** Replacing one player changes a total by the difference of that player's values. */
  lemma {:induction false} TotalUpdate(ps: seq<Player>, i: nat, q: Player, f: Player -> int)
    requires i < |ps|
    ensures Total(ps[i := q], f) == Total(ps, f) - f(ps[i]) + f(q)
  {
    var n := |ps| - 1;
    if i < n {
      assert ps[i := q][..n] == ps[..n][i := q];
      TotalUpdate(ps[..n], i, q, f);
    } else {
      assert ps[i := q][..n] == ps[..n];
    }
  }

  /** Freshly started players have no points and no turns between them. */
  lemma {:induction false} StartingTotals(names: seq<string>)
    ensures Total(StartingPlayers(names), ScoreOf) == 0
    ensures Total(StartingPlayers(names), TurnCount) == 0
  {
    if names != [] {
      var n := |names| - 1;
      StartingTotals(names[..n]);
      assert StartingPlayers(names)[..n] == StartingPlayers(names[..n]);
    }
  }

  function HistoryTotal(hs: seq<HistoryEntry>): int {
    if hs == [] then 0 else HistoryTotal(hs[..|hs| - 1]) + hs[|hs| - 1].score
  }

  lemma HistoryTotalAppend(hs: seq<HistoryEntry>, e: HistoryEntry)
    ensures HistoryTotal(hs + [e]) == HistoryTotal(hs) + e.score
  {
    assert (hs + [e])[..|hs|] == hs;
  }

  // ---------------------------------------------------------------------------
  // The score box
  // ---------------------------------------------------------------------------

  /** `parseInt(text) || 0`: the number the box holds, 0 when it holds none. */
  function ParseIntOrZero(text: string): int {
    match ParseInt(text)
    case Some(n) => n
    case None => 0
  }

  /** A box left blank, or holding only white space, counts as 0. */
  lemma BlankBoxIsZero(text: string)
    requires forall k | 0 <= k < |text| :: IsJsSpace(text[k])
    ensures ParseIntOrZero(text) == 0
  {
    TrimStartEmpty(text);
  }

  /** A box holding a minus sign and digits counts as the negated number. */
  lemma NegativeBox(n: nat)
    ensures ParseIntOrZero("-" + NatToString(n)) == -(n as int)
  {
    var s := "-" + NatToString(n);
    assert !IsJsSpace(s[0]) && TrimStart(s) == s;
    assert s[1..] == NatToString(n);
    ParseIntOfNatToString(n, []);
    assert NatToString(n) + [] == NatToString(n);
    ParseDecimalUnsigned(NatToString(n));
  }

  /** `Math.max(0, value + delta)`. */
  function Adjusted(value: int, delta: int): (r: nat)
    ensures r >= value + delta
    ensures r == value + delta || (r == 0 && value + delta < 0)
  {
    if value + delta > 0 then value + delta else 0
  }

  /** What `adjustScore` writes into the box is read back by the next `parseInt`. */
  lemma ScoreBoxRoundTrip(n: nat)
    ensures ParseIntOrZero(NatToString(n)) == n
  {
    ParseIntOfNatToString(n, []);
    assert NatToString(n) + [] == NatToString(n);
  }

  /** The loop of `startGame` that builds one player per name box. */
  method MakePlayers(names: seq<string>) returns (ps: seq<Player>)
    ensures ps == StartingPlayers(names)
  {
    ps := [];
    for i := 0 to |names|
      invariant ps == StartingPlayers(names[..i])
    {
      var name := PlayerName(names[i], i);
      assert names[..i + 1][..i] == names[..i];
      ps := ps + [Player(name, 0, [])];
    }
    assert names[..|names|] == names;
  }

  /**
   * A turn recorded both for player `i` (its points raised by the entry's
   * score, one more turn) and in the history keeps the totals in step.
   */
  lemma RecordTurn(ps: seq<Player>, hs: seq<HistoryEntry>, i: nat, updated: Player, e: HistoryEntry)
    requires i < |ps|
    requires Total(ps, ScoreOf) == HistoryTotal(hs) && Total(ps, TurnCount) == |hs|
    requires updated.score == ps[i].score + e.score && |updated.turns| == |ps[i].turns| + 1
    ensures Total(ps[i := updated], ScoreOf) == HistoryTotal(hs + [e])
    ensures Total(ps[i := updated], TurnCount) == |hs + [e]|
  {
    TotalUpdate(ps, i, updated, ScoreOf);
    TotalUpdate(ps, i, updated, TurnCount);
    HistoryTotalAppend(hs, e);
  }

  /** The player after player `i` of `n`, wrapping round to the first. */
  function NextIndex(i: nat, n: nat): (r: nat)
    requires n > 0
    ensures r < n
    ensures i + 1 < n ==> r == i + 1
    ensures i + 1 == n ==> r == 0
  {
    (i + 1) % n
  }

  // ---------------------------------------------------------------------------
  // The game state
  // ---------------------------------------------------------------------------

  /** `gameState` with the manual score box; the camera stream is not part of the model. */
  class Game {
    var players: seq<Player>
    var currentPlayerIndex: nat
    var previousPhoto: Option<Photo>
    var currentPhoto: Option<Photo>
    var turnHistory: seq<HistoryEntry>
    var scoreInput: string

    /**
     * The bookkeeping invariant: the index names a player once there are
     * players, the players' points add up to the history's, and every turn
     * a player has recorded is one history entry.
     */
    ghost predicate Valid()
      reads this
    {
      && (players != [] ==> currentPlayerIndex < |players|)
      && Total(players, ScoreOf) == HistoryTotal(turnHistory)
      && Total(players, TurnCount) == |turnHistory|
    }

    /** The state at page load; `scoreText` is what the page puts in the score box. */
    constructor (scoreText: string)
      ensures players == [] && currentPlayerIndex == 0 && turnHistory == []
      ensures previousPhoto == None && currentPhoto == None && scoreInput == scoreText
      ensures Valid()
    {
      players := [];
      currentPlayerIndex := 0;
      previousPhoto := None;
      currentPhoto := None;
      turnHistory := [];
      scoreInput := scoreText;
    }

    /**
     * `startGame` with the values of the name boxes in page order: with fewer
     * than two boxes nothing changes; otherwise the players are replaced,
     * the first one is to move and the history is emptied. The photos are
     * kept.
     */
    method StartGame(names: seq<string>)
      modifies this
      ensures |names| < MinPlayers ==>
                && players == old(players) && currentPlayerIndex == old(currentPlayerIndex) && turnHistory == old(turnHistory)
                && previousPhoto == old(previousPhoto) && currentPhoto == old(currentPhoto) && scoreInput == old(scoreInput)
      ensures |names| >= MinPlayers ==>
                && players == StartingPlayers(names) && currentPlayerIndex == 0 && turnHistory == []
                && previousPhoto == old(previousPhoto) && currentPhoto == old(currentPhoto)
                && scoreInput == old(scoreInput)
                && Valid()
    {
      var ps := MakePlayers(names);
      // `players.length` is the number of boxes
      if |names| < MinPlayers {
        return;
      }
      StartingTotals(names);
      players := ps;
      currentPlayerIndex := 0;
      turnHistory := [];
      assert Valid();
    }

    /** `processPhoto`: the photo becomes the current one and the box shows the detected score, or 0 when detection failed. */
    method ProcessPhoto(photo: Photo, detected: Option<nat>)
      modifies this
      ensures currentPhoto == Some(photo)
      ensures scoreInput == NatToString(if detected.Some? then detected.value else 0)
      ensures players == old(players) && currentPlayerIndex == old(currentPlayerIndex)
      ensures turnHistory == old(turnHistory) && previousPhoto == old(previousPhoto)
    {
      currentPhoto := Some(photo);
      var detectedScore := 0;
      if detected.Some? {
        detectedScore := detected.value;
      }
      scoreInput := NatToString(detectedScore);
    }

    /** `adjustScore`: the box now holds `max(0, value + delta)`, which `parseInt` reads back. */
    method AdjustScore(delta: int)
      modifies this
      ensures scoreInput == NatToString(Adjusted(ParseIntOrZero(old(scoreInput)), delta))
      ensures ParseIntOrZero(scoreInput) == Adjusted(ParseIntOrZero(old(scoreInput)), delta)
      ensures players == old(players) && currentPlayerIndex == old(currentPlayerIndex) && turnHistory == old(turnHistory)
      ensures previousPhoto == old(previousPhoto) && currentPhoto == old(currentPhoto)
    {
      var value := ParseIntOrZero(scoreInput);
      var v := Adjusted(value, delta);
      scoreInput := NatToString(v);
      ScoreBoxRoundTrip(v);
    }

    /** `nextTurn`: the next player in circular order. */
    method NextTurn()
      requires players != []
      modifies this
      ensures players == old(players) && turnHistory == old(turnHistory) && scoreInput == old(scoreInput)
      ensures currentPlayerIndex == NextIndex(old(currentPlayerIndex), |players|)
      ensures previousPhoto == old(previousPhoto) && currentPhoto == old(currentPhoto)
    {
      currentPlayerIndex := (currentPlayerIndex + 1) % |players|;
      assert currentPlayerIndex == NextIndex(old(currentPlayerIndex), |players|);
    }

    /**
     * `confirmScore`: the number in the box goes to the current player, as a
     * new turn record and as a history entry; the current photo becomes the
     * one the next photo is compared with; the turn passes on.
     */
    method ConfirmScore()
      requires Valid() && players != [] && currentPhoto.Some?
      modifies this
      ensures Valid()
      ensures var i := old(currentPlayerIndex);
              var score := ParseIntOrZero(old(scoreInput));
              var url := old(currentPhoto).value.url;
              var p := old(players)[i];
              && players == old(players)[i := p.(score := p.score + score,
                                                 turns := p.turns + [Turn(|old(turnHistory)| + 1, score, Some(url), Play)])]
              && turnHistory == old(turnHistory) + [HistoryEntry(i, score, Some(url), None)]
      ensures previousPhoto == old(currentPhoto) && currentPhoto == None
      ensures |players| == |old(players)| && currentPlayerIndex == NextIndex(old(currentPlayerIndex), |players|)
      ensures scoreInput == old(scoreInput)
    {
      var score := ParseIntOrZero(scoreInput);
      var i := currentPlayerIndex;
      var currentPlayer := players[i];
      var url := currentPhoto.value.url;
      var updated := currentPlayer.(score := currentPlayer.score + score,
                                    turns := currentPlayer.turns + [Turn(|turnHistory| + 1, score, Some(url), Play)]);
      RecordTurn(players, turnHistory, i, updated, HistoryEntry(i, score, Some(url), None));
      players := players[i := updated];
      turnHistory := turnHistory + [HistoryEntry(i, score, Some(url), None)];
      previousPhoto := currentPhoto;
      currentPhoto := None;
      NextTurn();
    }

    /** `swapTiles`: a turn without points, recorded for the current player and in the history; the turn passes on. */
    method SwapTiles()
      requires Valid() && players != []
      modifies this
      ensures Valid()
      ensures var i := old(currentPlayerIndex);
              var p := old(players)[i];
              && players == old(players)[i := p.(turns := p.turns + [Turn(|old(turnHistory)| + 1, 0, None, Swap)])]
              && turnHistory == old(turnHistory) + [HistoryEntry(i, 0, None, Some(Swap))]
      ensures forall j | 0 <= j < |players| :: players[j].score == old(players[j].score)
      ensures |players| == |old(players)| && currentPlayerIndex == NextIndex(old(currentPlayerIndex), |players|)
      ensures previousPhoto == old(previousPhoto) && currentPhoto == old(currentPhoto) && scoreInput == old(scoreInput)
    {
      var i := currentPlayerIndex;
      var currentPlayer := players[i];
      var updated := currentPlayer.(turns := currentPlayer.turns + [Turn(|turnHistory| + 1, 0, None, Swap)]);
      RecordTurn(players, turnHistory, i, updated, HistoryEntry(i, 0, None, Some(Swap)));
      players := players[i := updated];
      turnHistory := turnHistory + [HistoryEntry(i, 0, None, Some(Swap))];
      NextTurn();
    }
  }

  // ---------------------------------------------------------------------------
  // The score listing
  // ---------------------------------------------------------------------------

  predicate NonIncreasing(s: seq<Player>) {
    forall i, j | 0 <= i < j < |s| :: s[i].score >= s[j].score
  }

  /** Puts `x` in front of the first player with no more points than `x`. */
  function InsertByScore(x: Player, s: seq<Player>): (r: seq<Player>)
    ensures multiset(r) == multiset(s) + multiset{x}
  {
    if s == [] || s[0].score <= x.score then [x] + s
    else
      assert s == [s[0]] + s[1..];
      [s[0]] + InsertByScore(x, s[1..])
  }

  lemma {:induction false} InsertSorted(x: Player, s: seq<Player>)
    requires NonIncreasing(s)
    ensures NonIncreasing(InsertByScore(x, s))
  {
    if s == [] || s[0].score <= x.score {
      var r := [x] + s;
      forall i, j | 0 <= i < j < |r| ensures r[i].score >= r[j].score {
        assert r[j] == s[j - 1];
        if i > 0 { assert r[i] == s[i - 1]; }
      }
    } else {
      var rest := s[1..];
      assert NonIncreasing(rest) by {
        forall i, j | 0 <= i < j < |rest| ensures rest[i].score >= rest[j].score {
          assert rest[i] == s[i + 1] && rest[j] == s[j + 1];
        }
      }
      InsertSorted(x, rest);
      var tail := InsertByScore(x, rest);
      var r := [s[0]] + tail;
      forall i, j | 0 <= i < j < |r| ensures r[i].score >= r[j].score {
        assert r[j] == tail[j - 1];
        if i > 0 {
          assert r[i] == tail[i - 1];
        } else {
          // the head of `tail` is `x` or `rest[0]`, and heads bound the rest
          assert tail[0] == x || (rest != [] && tail[0] == rest[0]);
          assert tail[0].score >= tail[j - 1].score;
        }
      }
    }
  }

  /**
   * `[...players].sort((a, b) => b.score - a.score)`: the array sort is
   * stable, so this is the insertion sort that places each player before
   * the later ones with no more points.
   */
  function SortedByScore(ps: seq<Player>): (r: seq<Player>)
    ensures multiset(r) == multiset(ps)
    ensures NonIncreasing(r)
  {
    if ps == [] then []
    else
      assert ps == [ps[0]] + ps[1..];
      var sortedRest := SortedByScore(ps[1..]);
      InsertSorted(ps[0], sortedRest);
      InsertByScore(ps[0], sortedRest)
  }

  /** The players with exactly `v` points, in order. */
  function WithScore(s: seq<Player>, v: int): seq<Player> {
    if s == [] then [] else (if s[0].score == v then [s[0]] else []) + WithScore(s[1..], v)
  }

  lemma {:induction false} InsertStable(x: Player, s: seq<Player>, v: int)
    ensures WithScore(InsertByScore(x, s), v) == (if x.score == v then [x] else []) + WithScore(s, v)
  {
    if s == [] || s[0].score <= x.score {
      assert ([x] + s)[1..] == s;
    } else {
      var tail := InsertByScore(x, s[1..]);
      InsertStable(x, s[1..], v);
      assert ([s[0]] + tail)[1..] == tail;
      assert WithScore(s, v) == (if s[0].score == v then [s[0]] else []) + WithScore(s[1..], v);
      if x.score == v {
        assert s[0].score != v;
      }
    }
  }

  /** Players with equal points keep their order: the listing is the stable sort. */
  lemma {:induction false} SortStable(ps: seq<Player>, v: int)
    ensures WithScore(SortedByScore(ps), v) == WithScore(ps, v)
  {
    if ps != [] {
      SortStable(ps[1..], v);
      InsertStable(ps[0], SortedByScore(ps[1..]), v);
    }
  }

  /** The listing holds every player once, highest score first, so the player crowned first has the most points. */
  lemma WinnerHasTopScore(ps: seq<Player>)
    requires ps != []
    ensures |SortedByScore(ps)| == |ps|
    ensures forall p | p in ps :: SortedByScore(ps)[0].score >= p.score
  {
    var r := SortedByScore(ps);
    assert |r| == |multiset(r)| == |multiset(ps)| == |ps|;
    forall p | p in ps ensures r[0].score >= p.score {
      assert p in multiset(r);
      var j :| 0 <= j < |r| && r[j] == p;
    }
  }
}
