/**
 * The PlayerData record and the seven sort orders the viewer offers.
 */
module Players {
  import opened Text

  /** One row of the input file: name, team and six statistics. */
  datatype Player = Player(
    name: string, team: string,
    points: real, assists: real, rebounds: real, steals: real, blocks: real,
    mvpScore: real)

  /** The entries of the "Sort by" combo box, in the order it lists them. */
  datatype SortKey = MvpScore | Points | Assists | Rebounds | Steals | Blocks | PlayerName

  const SortKeys: seq<SortKey> := [MvpScore, Points, Assists, Rebounds, Steals, Blocks, PlayerName]

  function Label(k: SortKey): string
  {
    match k
    case MvpScore => "MVP Score"
    case Points => "Points"
    case Assists => "Assists"
    case Rebounds => "Rebounds"
    case Steals => "Steals"
    case Blocks => "Blocks"
    case PlayerName => "Player Name"
  }

  /** The combo box lists every key exactly once, under distinct labels. */
  lemma SortKeysListed()
    ensures |SortKeys| == 7
    ensures forall k: SortKey :: k in SortKeys
    ensures forall i, j :: 0 <= i < j < |SortKeys| ==> Label(SortKeys[i]) != Label(SortKeys[j])
  {
    forall k: SortKey ensures k in SortKeys {
      match k
      case MvpScore => assert SortKeys[0] == k;
      case Points => assert SortKeys[1] == k;
      case Assists => assert SortKeys[2] == k;
      case Rebounds => assert SortKeys[3] == k;
      case Steals => assert SortKeys[4] == k;
      case Blocks => assert SortKeys[5] == k;
      case PlayerName => assert SortKeys[6] == k;
    }
  }

  function Stat(p: Player, k: SortKey): real
    requires k != PlayerName
  {
    match k
    case MvpScore => p.mvpScore
    case Points => p.points
    case Assists => p.assists
    case Rebounds => p.rebounds
    case Steals => p.steals
    case Blocks => p.blocks
  }

  /** Double.compare on finite values, reduced to its sign. */
  function CompareReal(x: real, y: real): (c: int)
    ensures c == 0 <==> x == y
    ensures c < 0 <==> x < y
    ensures -1 <= c <= 1
  {
    if x < y then -1 else if x > y then 1 else 0
  }

  /** The ascending comparison on one key: Double.compare or String.compareTo. */
  function CompareBy(p: Player, q: Player, k: SortKey): (c: int)
    ensures -1 <= c <= 1
  {
    if k == PlayerName then CompareText(p.name, q.name) else CompareReal(Stat(p, k), Stat(q, k))
  }

  /** The comparator handed to List.sort: descending swaps its arguments. */
  function Comparator(p: Player, q: Player, k: SortKey, ascending: bool): int
  {
    if ascending then CompareBy(p, q, k) else CompareBy(q, p, k)
  }

  /** Two records tie on a key when the key values are equal. */
  predicate SameKey(p: Player, q: Player, k: SortKey)
  {
    if k == PlayerName then p.name == q.name else Stat(p, k) == Stat(q, k)
  }

  lemma CompareByFlip(p: Player, q: Player, k: SortKey)
    ensures CompareBy(p, q, k) == -CompareBy(q, p, k)
  {
    if k == PlayerName {
      CompareTextFlip(p.name, q.name);
    }
  }

  lemma CompareByZero(p: Player, q: Player, k: SortKey)
    ensures CompareBy(p, q, k) == 0 <==> SameKey(p, q, k)
  {
    if k == PlayerName {
      CompareTextZero(p.name, q.name);
    }
  }

  lemma CompareByTransitive(p: Player, q: Player, r: Player, k: SortKey)
    requires CompareBy(p, q, k) <= 0 && CompareBy(q, r, k) <= 0
    ensures CompareBy(p, r, k) <= 0
  {
    if k == PlayerName {
      CompareTextTransitive(p.name, q.name, r.name);
    }
  }

  /** Either direction's comparator is a total preorder whose ties are exactly the equal keys. */
  lemma ComparatorFlip(p: Player, q: Player, k: SortKey, ascending: bool)
    ensures Comparator(p, q, k, ascending) == -Comparator(q, p, k, ascending)
    ensures Comparator(p, q, k, ascending) == 0 <==> SameKey(p, q, k)
  {
    CompareByFlip(p, q, k);
    CompareByZero(p, q, k);
  }

  lemma ComparatorTransitive(p: Player, q: Player, r: Player, k: SortKey, ascending: bool)
    requires Comparator(p, q, k, ascending) <= 0 && Comparator(q, r, k, ascending) <= 0
    ensures Comparator(p, r, k, ascending) <= 0
  {
    if ascending {
      CompareByTransitive(p, q, r, k);
    } else {
      CompareByTransitive(r, q, p, k);
    }
  }
}
