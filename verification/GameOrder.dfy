/** The comparisons that sort the game list, column by column, and which of them are orders a sort
    can rely on. */
module GameOrder {

  datatype Entry = Entry(path: string, serial: string, title: string, system: string, genre: string, publisher: string,
                         developer: string, fileSize: int, uncompressedSize: nat, lastPlayed: int, totalPlayed: int,
                         releaseDate: nat, minPlayers: nat, maxPlayers: nat)

  datatype Column =
    | Icon | Serial | Title | SystemName | FileTitle | Developer | Publisher | Genre | Year | Players
    | TimePlayed | LastPlayed | FileSize | UncompressedSize | Cover

  // ----- Comparing text

  function Fold(c: char): int {
    if 'A' <= c <= 'Z' then c as int + 32 else c as int
  }

  /** The sign of a comparison of two strings without regard to letter case. */
  function Strcasecmp(s: string, t: string): int {
    if s == [] then (if t == [] then 0 else -1)
    else if t == [] then 1
    else if Fold(s[0]) != Fold(t[0]) then (if Fold(s[0]) < Fold(t[0]) then -1 else 1)
    else Strcasecmp(s[1..], t[1..])
  }

  /** The same for at most n characters of each. */
  function Strncasecmp(s: string, t: string, n: nat): int
    requires n <= |s| && n <= |t|
  {
    Strcasecmp(s[..n], t[..n])
  }

  function Smallest(s: string, t: string): nat {
    if |s| < |t| then |s| else |t|
  }

  function LastIndex(s: string, c: char): (r: int)
    ensures -1 <= r < |s|
    ensures r >= 0 ==> s[r] == c
    ensures forall i :: r < i < |s| ==> s[i] != c
  {
    if s == [] then -1
    else if s[|s| - 1] == c then |s| - 1
    else LastIndex(s[..|s| - 1], c)
  }

  function FileName(path: string): string {
    var slash, backslash := LastIndex(path, '/'), LastIndex(path, '\\');
    path[(if backslash > slash then backslash else slash) + 1..]
  }

  function FileTitleOf(path: string): string {
    var name := FileName(path);
    var dot := LastIndex(name, '.');
    if dot < 0 then name else name[..dot]
  }

  // ----- The comparison of two entries

  predicate TitlesLessThan(l: Entry, r: Entry) {
    Strcasecmp(l.title, r.title) < 0
  }

  predicate TextLessThan(l: Entry, r: Entry, left: string, right: string) {
    if left == right then TitlesLessThan(l, r) else Strcasecmp(left, right) < 0
  }

  predicate NumberLessThan(l: Entry, r: Entry, left: int, right: int) {
    if left == right then TitlesLessThan(l, r) else left < right
  }

  /** The players of a game as one byte. */
  function PlayersKey(e: Entry): nat {
    (e.minPlayers * 16 + e.maxPlayers) % 256
  }

  predicate LessThan(l: Entry, r: Entry, column: Column) {
    match column
    case Icon => TitlesLessThan(l, r)
    case Serial => TextLessThan(l, r, l.serial, r.serial)
    case Title => TitlesLessThan(l, r)
    case SystemName => TextLessThan(l, r, l.system, r.system)
    case FileTitle =>
      var left, right := FileTitleOf(l.path), FileTitleOf(r.path);
      if left == right then TitlesLessThan(l, r) else Strncasecmp(left, right, Smallest(left, right)) < 0
    case FileSize => NumberLessThan(l, r, l.fileSize, r.fileSize)
    case UncompressedSize => NumberLessThan(l, r, l.uncompressedSize, r.uncompressedSize)
    case Genre => TextLessThan(l, r, l.genre, r.genre)
    case Developer => TextLessThan(l, r, l.developer, r.developer)
    case Publisher => TextLessThan(l, r, l.publisher, r.publisher)
    case Year => NumberLessThan(l, r, l.releaseDate, r.releaseDate)
    case TimePlayed => NumberLessThan(l, r, l.totalPlayed, r.totalPlayed)
    case LastPlayed => NumberLessThan(l, r, l.lastPlayed, r.lastPlayed)
    case Players => NumberLessThan(l, r, PlayersKey(l), PlayersKey(r))
    case Cover => false
  }

  /** Rows beyond the list are not less than any. */
  predicate RowLessThan(entries: seq<Entry>, left: nat, right: nat, column: Column) {
    left < |entries| && right < |entries| && LessThan(entries[left], entries[right], column)
  }

  // ----- Case-insensitive comparison is a total preorder

  lemma {:induction false} CompareOpposite(s: string, t: string)
    ensures Strcasecmp(t, s) == -Strcasecmp(s, t)
  {
    if s != [] && t != [] { CompareOpposite(s[1..], t[1..]); }
  }

  lemma {:induction false} CompareTransitive(s: string, t: string, u: string)
    requires Strcasecmp(s, t) <= 0 && Strcasecmp(t, u) <= 0
    ensures Strcasecmp(s, u) <= 0
    ensures Strcasecmp(s, u) == 0 ==> Strcasecmp(s, t) == 0 && Strcasecmp(t, u) == 0
  {
    if s != [] && t != [] && u != [] {
      if Fold(s[0]) == Fold(t[0]) == Fold(u[0]) { CompareTransitive(s[1..], t[1..], u[1..]); }
    }
  }

  lemma {:induction false} CompareSame(s: string)
    ensures Strcasecmp(s, s) == 0
  {
    if s != [] { CompareSame(s[1..]); }
  }

  function PrefixCompare(s: string, t: string): int {
    Strncasecmp(s, t, Smallest(s, t))
  }

  lemma PrefixFirst(s: string, t: string)
    ensures s == [] || t == [] ==> PrefixCompare(s, t) == 0
    ensures s != [] && t != [] && Fold(s[0]) != Fold(t[0]) ==> PrefixCompare(s, t) == if Fold(s[0]) < Fold(t[0]) then -1 else 1
    ensures s != [] && t != [] && Fold(s[0]) == Fold(t[0]) ==> PrefixCompare(s, t) == PrefixCompare(s[1..], t[1..])
  {
    var n := Smallest(s, t);
    if n > 0 {
      assert s[..n][0] == s[0] && t[..n][0] == t[0];
      assert s[..n][1..] == s[1..][..n - 1] && t[..n][1..] == t[1..][..n - 1];
    }
  }

  lemma {:induction false} PrefixTransitive(s: string, t: string, u: string)
    requires PrefixCompare(s, t) < 0 && PrefixCompare(t, u) < 0
    ensures PrefixCompare(s, u) < 0
  {
    hide PrefixCompare, Fold;
    PrefixFirst(s, t);
    PrefixFirst(t, u);
    PrefixFirst(s, u);
    if Fold(s[0]) == Fold(t[0]) == Fold(u[0]) { PrefixTransitive(s[1..], t[1..], u[1..]); }
  }

  lemma PrefixOpposite(s: string, t: string)
    ensures PrefixCompare(t, s) == -PrefixCompare(s, t)
  {
    CompareOpposite(s[..Smallest(s, t)], t[..Smallest(s, t)]);
  }

  lemma PrefixSame(s: string)
    ensures PrefixCompare(s, s) == 0
  {
    CompareSame(s[..|s|]);
  }

  // ----- Every column in one form

  /** A column compares a key, and titles where the keys are equal. */
  datatype Kind = ByTitle | ByText | ByPrefix | ByNumber | Unsorted

  function KindOf(column: Column): Kind {
    match column
    case Icon | Title => ByTitle
    case Serial | SystemName | Genre | Developer | Publisher => ByText
    case FileTitle => ByPrefix
    case Cover => Unsorted
    case _ => ByNumber
  }

  function TextOf(e: Entry, column: Column): string {
    match column
    case Serial => e.serial
    case SystemName => e.system
    case Genre => e.genre
    case Developer => e.developer
    case Publisher => e.publisher
    case FileTitle => FileTitleOf(e.path)
    case _ => ""
  }

  function NumberOf(e: Entry, column: Column): int {
    match column
    case FileSize => e.fileSize
    case UncompressedSize => e.uncompressedSize
    case Year => e.releaseDate
    case TimePlayed => e.totalPlayed
    case LastPlayed => e.lastPlayed
    case Players => PlayersKey(e)
    case _ => 0
  }

  /** The sign of the comparison of the keys of a column. */
  function CompareKeys(l: Entry, r: Entry, column: Column): int {
    match KindOf(column)
    case ByText => Strcasecmp(TextOf(l, column), TextOf(r, column))
    case ByPrefix => PrefixCompare(TextOf(l, column), TextOf(r, column))
    case _ => NumberOf(l, column) - NumberOf(r, column)
  }

  predicate SameKey(l: Entry, r: Entry, column: Column) {
    TextOf(l, column) == TextOf(r, column) && NumberOf(l, column) == NumberOf(r, column)
  }

  lemma LessThanByKey(l: Entry, r: Entry, column: Column)
    ensures LessThan(l, r, column)
            <==> KindOf(column) != Unsorted
                 && if SameKey(l, r, column) then TitlesLessThan(l, r) else CompareKeys(l, r, column) < 0
  {
    hide FileTitleOf, PlayersKey, Strcasecmp;
  }

  lemma KeysOpposite(l: Entry, r: Entry, column: Column)
    ensures CompareKeys(l, r, column) < 0 <==> CompareKeys(r, l, column) > 0
    ensures CompareKeys(l, r, column) == 0 <==> CompareKeys(r, l, column) == 0
    ensures SameKey(l, r, column) ==> CompareKeys(l, r, column) == 0
  {
    hide Strcasecmp, PrefixCompare, TextOf, NumberOf;
    CompareOpposite(TextOf(l, column), TextOf(r, column));
    PrefixOpposite(TextOf(l, column), TextOf(r, column));
    CompareSame(TextOf(l, column));
    PrefixSame(TextOf(l, column));
  }

  lemma KeysTransitive(a: Entry, b: Entry, c: Entry, column: Column)
    requires CompareKeys(a, b, column) < 0 && CompareKeys(b, c, column) < 0
    ensures CompareKeys(a, c, column) < 0
  {
    hide Strcasecmp, PrefixCompare, TextOf, NumberOf;
    if KindOf(column) == ByText { CompareTransitive(TextOf(a, column), TextOf(b, column), TextOf(c, column)); }
    if KindOf(column) == ByPrefix { PrefixTransitive(TextOf(a, column), TextOf(b, column), TextOf(c, column)); }
  }

  lemma SameKeyCompares(a: Entry, b: Entry, c: Entry, column: Column)
    requires SameKey(a, b, column)
    ensures CompareKeys(a, c, column) == CompareKeys(b, c, column)
    ensures CompareKeys(c, a, column) == CompareKeys(c, b, column)
  {
    hide Strcasecmp, PrefixCompare, TextOf, NumberOf;
  }

  // ----- A strict partial order in every column

  lemma Irreflexive(e: Entry, column: Column)
    ensures !LessThan(e, e, column)
  {
    hide LessThan, CompareKeys;
    LessThanByKey(e, e, column);
    CompareSame(e.title);
  }

  lemma Transitive(a: Entry, b: Entry, c: Entry, column: Column)
    requires LessThan(a, b, column) && LessThan(b, c, column)
    ensures LessThan(a, c, column)
  {
    hide LessThan, CompareKeys, TextOf, NumberOf, Strcasecmp;
    LessThanByKey(a, b, column);
    LessThanByKey(b, c, column);
    LessThanByKey(a, c, column);
    if SameKey(a, b, column) {
      SameKeyCompares(a, b, c, column);
      if SameKey(b, c, column) { CompareTransitive(a.title, b.title, c.title); }
    } else if SameKey(b, c, column) {
      SameKeyCompares(b, c, a, column);
    } else {
      KeysTransitive(a, b, c, column);
      KeysOpposite(a, c, column);
    }
  }

  /** No entry precedes itself, none precedes one that precedes it, and precedence carries over,
      whatever the column; so too for rows, some of which may be gone. */
  lemma StrictPartialOrder(entries: seq<Entry>, a: nat, b: nat, c: nat, column: Column)
    ensures !RowLessThan(entries, a, a, column)
    ensures RowLessThan(entries, a, b, column) ==> !RowLessThan(entries, b, a, column)
    ensures RowLessThan(entries, a, b, column) && RowLessThan(entries, b, c, column) ==> RowLessThan(entries, a, c, column)
  {
    hide LessThan;
    if a < |entries| { Irreflexive(entries[a], column); }
    if RowLessThan(entries, a, b, column) && RowLessThan(entries, b, a, column) {
      Transitive(entries[a], entries[b], entries[a], column);
    }
    if RowLessThan(entries, a, b, column) && RowLessThan(entries, b, c, column) {
      Transitive(entries[a], entries[b], entries[c], column);
    }
  }

  // ----- Ties

  ghost predicate Tied(l: Entry, r: Entry, column: Column) {
    !LessThan(l, r, column) && !LessThan(r, l, column)
  }

  /** Different keys that compare as equal, as texts that differ only in letter case do, and file
      titles one of which begins the other. */
  predicate Confused(l: Entry, r: Entry, column: Column) {
    !SameKey(l, r, column) && CompareKeys(l, r, column) == 0
  }

  lemma TiedIff(l: Entry, r: Entry, column: Column)
    requires KindOf(column) != Unsorted
    ensures Tied(l, r, column)
            <==> if SameKey(l, r, column) then Strcasecmp(l.title, r.title) == 0 else CompareKeys(l, r, column) == 0
  {
    hide LessThan, CompareKeys, TextOf, NumberOf, Strcasecmp;
    LessThanByKey(l, r, column);
    LessThanByKey(r, l, column);
    CompareOpposite(l.title, r.title);
    KeysOpposite(l, r, column);
    KeysOpposite(r, l, column);
  }

  /** Where no keys are confused, ties carry over: the order is strict weak. */
  lemma TiesCarryOver(a: Entry, b: Entry, c: Entry, column: Column)
    requires !Confused(a, b, column) && !Confused(b, c, column)
    requires Tied(a, b, column) && Tied(b, c, column)
    ensures Tied(a, c, column)
  {
    hide LessThan, CompareKeys, TextOf, NumberOf, Strcasecmp;
    if KindOf(column) == Unsorted {
      LessThanByKey(a, c, column);
      LessThanByKey(c, a, column);
    } else {
      TiedIff(a, b, column);
      TiedIff(b, c, column);
      TiedIff(a, c, column);
      CompareOpposite(a.title, b.title);
      CompareOpposite(b.title, c.title);
      CompareTransitive(a.title, b.title, c.title);
      CompareTransitive(c.title, b.title, a.title);
      CompareOpposite(a.title, c.title);
    }
  }

  lemma NoText(l: Entry, r: Entry, column: Column)
    requires KindOf(column) != ByText && KindOf(column) != ByPrefix
    ensures TextOf(l, column) == TextOf(r, column)
  {
  }

  /** Titles and numbers are never confused, the packed player count included. */
  lemma NumbersNotConfused(l: Entry, r: Entry, column: Column)
    requires KindOf(column) != ByText && KindOf(column) != ByPrefix
    ensures !Confused(l, r, column)
  {
    hide TextOf, NumberOf;
    NoText(l, r, column);
    assert CompareKeys(l, r, column) == NumberOf(l, column) - NumberOf(r, column);
  }

  /** Title and numeric columns are strict weak orders on all entries. */
  lemma StrictWeakByNumber(a: Entry, b: Entry, c: Entry, column: Column)
    requires KindOf(column) != ByText && KindOf(column) != ByPrefix
    requires Tied(a, b, column) && Tied(b, c, column)
    ensures Tied(a, c, column)
  {
    NumbersNotConfused(a, b, column);
    NumbersNotConfused(b, c, column);
    TiesCarryOver(a, b, c, column);
  }

  // ----- Text columns, on the entries of a list

  /** Ties carry over among the entries as they are. */
  ghost predicate StrictWeakOn(entries: seq<Entry>, column: Column) {
    forall i, j, k :: 0 <= i < |entries| && 0 <= j < |entries| && 0 <= k < |entries|
      && Tied(entries[i], entries[j], column) && Tied(entries[j], entries[k], column)
      ==> Tied(entries[i], entries[k], column)
  }

  /** Two entries that are confused with a third and set apart from each other: by their titles if
      they share a key, or, where keys are compared up to the shorter, by their keys. */
  predicate Between(a: Entry, b: Entry, c: Entry, column: Column) {
    && Confused(a, b, column) && Confused(b, c, column)
    && (if SameKey(a, c, column) then Strcasecmp(a.title, c.title) != 0
        else KindOf(column) == ByPrefix && CompareKeys(a, c, column) != 0)
  }

  ghost predicate NoneBetween(entries: seq<Entry>, column: Column) {
    forall i, j, k :: 0 <= i < |entries| && 0 <= j < |entries| && 0 <= k < |entries|
      ==> !Between(entries[i], entries[j], entries[k], column)
  }

  ghost predicate NoneConfused(entries: seq<Entry>, column: Column) {
    forall i, j :: 0 <= i < |entries| && 0 <= j < |entries| ==> !Confused(entries[i], entries[j], column)
  }

  lemma ConfusedIsTied(a: Entry, b: Entry, column: Column)
    requires Confused(a, b, column)
    ensures Tied(a, b, column)
  {
    hide Strcasecmp, PrefixCompare, TextOf, NumberOf, Tied, CompareKeys;
    ConfusedIsText(a, b, column);
    TiedIff(a, b, column);
  }

  /** Where whole texts are compared, keys confused with the same key compare as equal. */
  lemma TextConfusionCarries(a: Entry, b: Entry, c: Entry, column: Column)
    requires KindOf(column) == ByText && Confused(a, b, column) && Confused(b, c, column)
    ensures CompareKeys(a, c, column) == 0
  {
    hide TextOf, NumberOf, Strcasecmp;
    var s, t, u := TextOf(a, column), TextOf(b, column), TextOf(c, column);
    CompareOpposite(s, t);
    CompareOpposite(t, u);
    CompareOpposite(s, u);
    CompareTransitive(s, t, u);
    CompareTransitive(u, t, s);
  }

  /** Ties fail to carry over exactly from one confused entry to another across the one between. */
  lemma TiesBreakIff(a: Entry, b: Entry, c: Entry, column: Column)
    ensures Tied(a, b, column) && Tied(b, c, column) && !Tied(a, c, column) <==> Between(a, b, c, column)
  {
    hide LessThan, Tied, CompareKeys, TextOf, NumberOf, Strcasecmp;
    if Between(a, b, c, column) {
      ConfusedIsTied(a, b, column);
      ConfusedIsTied(b, c, column);
      ConfusedIsText(a, b, column);
      TiedIff(a, c, column);
    } else if Tied(a, b, column) && Tied(b, c, column) {
      TiesStay(a, b, c, column);
    }
  }

  lemma TiesStay(a: Entry, b: Entry, c: Entry, column: Column)
    requires !Between(a, b, c, column) && Tied(a, b, column) && Tied(b, c, column)
    ensures Tied(a, c, column)
  {
    hide LessThan, Tied, CompareKeys, TextOf, NumberOf, Strcasecmp;
    if Confused(a, b, column) && Confused(b, c, column) {
      ConfusedIsText(a, b, column);
      TiedIff(a, c, column);
      if KindOf(column) == ByText { TextConfusionCarries(a, b, c, column); }
    } else if Confused(a, b, column) || Confused(b, c, column) {
      OneConfused(a, b, c, column);
    } else {
      TiesCarryOver(a, b, c, column);
    }
  }

  /** A tie within one key on one side leaves the confusion on the other. */
  lemma OneConfused(a: Entry, b: Entry, c: Entry, column: Column)
    requires Tied(a, b, column) && Tied(b, c, column)
    requires Confused(a, b, column) != Confused(b, c, column)
    ensures Tied(a, c, column)
  {
    hide LessThan, Tied, CompareKeys, Strcasecmp, TextOf, NumberOf;
    if Confused(a, b, column) { ConfusedIsText(a, b, column); } else { ConfusedIsText(b, c, column); }
    TiedIff(a, b, column);
    TiedIff(b, c, column);
    TiedIff(a, c, column);
    if Confused(a, b, column) { SameKeyCompares(b, c, a, column); } else { SameKeyCompares(a, b, c, column); }
  }

  /** A column is a strict weak order on a list exactly when no entry lies between two that it is
      confused with. */
  lemma StrictWeakIff(entries: seq<Entry>, column: Column)
    ensures StrictWeakOn(entries, column) <==> NoneBetween(entries, column)
  {
    hide Tied, Between;
    forall i, j, k | 0 <= i < |entries| && 0 <= j < |entries| && 0 <= k < |entries|
      ensures (&& Tied(entries[i], entries[j], column) && Tied(entries[j], entries[k], column)
               && !Tied(entries[i], entries[k], column)) <==> Between(entries[i], entries[j], entries[k], column)
    {
      TiesBreakIff(entries[i], entries[j], entries[k], column);
    }
  }

  /** So it is one, in particular, on a list whose keys are not confused at all. */
  lemma StrictWeakIfNoneConfused(entries: seq<Entry>, column: Column)
    requires NoneConfused(entries, column)
    ensures StrictWeakOn(entries, column)
  {
    hide Confused, Tied;
    StrictWeakIff(entries, column);
  }

  lemma ConfusedIsText(l: Entry, r: Entry, column: Column)
    requires Confused(l, r, column)
    ensures KindOf(column) == ByText || KindOf(column) == ByPrefix
  {
    hide Strcasecmp, PrefixCompare, FileTitleOf, PlayersKey;
  }

  lemma TitlesDiffer()
    ensures Strcasecmp("a", "b") != 0
  {
  }

  lemma CompareCase()
    ensures Strcasecmp("sega", "SEGA") == 0 && Strcasecmp("SEGA", "sega") == 0
  {
    assert Strcasecmp("a", "A") == 0;
    assert Strcasecmp("ga", "GA") == 0;
    assert Strcasecmp("ega", "EGA") == 0;
    CompareOpposite("sega", "SEGA");
  }

  /** Two games of one maker and one of the same maker in capitals: in the developer column the third
      ties with both, and they do not tie with each other. */
  lemma CaseBreaksTies(e: Entry)
    ensures var entries := [e.(developer := "sega", title := "a"), e.(developer := "SEGA", title := "a"),
                            e.(developer := "sega", title := "b")];
            Between(entries[0], entries[1], entries[2], Developer) && !StrictWeakOn(entries, Developer)
  {
    var entries := [e.(developer := "sega", title := "a"), e.(developer := "SEGA", title := "a"),
                    e.(developer := "sega", title := "b")];
    assert "sega"[0] != "SEGA"[0];
    CompareCase();
    TitlesDiffer();
    assert Between(entries[0], entries[1], entries[2], Developer);
    hide Between;
    StrictWeakIff(entries, Developer);
  }
}
