/** Which of two games comes first in each column, in terms of their letters and numbers. */
module GameListReadings {
  import opened GameOrder

  // ----- The alphabet

  /** A letter's place, capitals with their small letters. */
  function Place(c: char): int {
    if c in "ABCDEFGHIJKLMNOPQRSTUVWXYZ" then 'a' as int + (c as int - 'A' as int) else c as int
  }

  predicate SameTo(s: string, t: string, k: nat)
    requires k <= |s| && k <= |t|
  {
    forall i :: 0 <= i < k ==> Place(s[i]) == Place(t[i])
  }

  /** The first text is the earlier one: it agrees with the second up to its own end, or to a letter that
      is earlier in the alphabet. */
  ghost predicate Earlier(s: string, t: string) {
    exists k: nat :: k <= |s| && k < |t| && SameTo(s, t, k) && (k == |s| || Place(s[k]) < Place(t[k]))
  }

  /** The same, over as many letters as both have. */
  ghost predicate EarlierWithin(s: string, t: string) {
    exists k: nat :: k < |s| && k < |t| && SameTo(s, t, k) && Place(s[k]) < Place(t[k])
  }

  lemma PlaceIsFold(c: char)
    ensures Place(c) == Fold(c)
  {
    if 'A' <= c <= 'Z' { CapitalIn(c); }
  }

  lemma CapitalIn(c: char)
    requires 'A' <= c <= 'Z'
    ensures c in "ABCDEFGHIJKLMNOPQRSTUVWXYZ"
  {
    var i := c as int - 'A' as int;
    assert "ABCDEFGHIJKLMNOPQRSTUVWXYZ"[i] == c;
  }

  lemma {:induction false} EarlierRest(s: string, t: string)
    requires s != [] && t != [] && Place(s[0]) == Place(t[0])
    ensures Earlier(s, t) <==> Earlier(s[1..], t[1..])
  {
    hide Place;
    var x, y := s[1..], t[1..];
    if k: nat :| k <= |s| && k < |t| && SameTo(s, t, k) && (k == |s| || Place(s[k]) < Place(t[k])) {
      assert k > 0;
      assert forall i :: 0 <= i < k - 1 ==> x[i] == s[i + 1] && y[i] == t[i + 1];
      assert SameTo(x, y, k - 1) && (k - 1 == |x| || Place(x[k - 1]) < Place(y[k - 1]));
    }
    if k: nat :| k <= |x| && k < |y| && SameTo(x, y, k) && (k == |x| || Place(x[k]) < Place(y[k])) {
      assert forall i :: 0 < i < k + 1 ==> s[i] == x[i - 1] && t[i] == y[i - 1];
      assert SameTo(s, t, k + 1) && (k + 1 == |s| || Place(s[k + 1]) < Place(t[k + 1]));
    }
  }

  lemma EarlierFirst(s: string, t: string)
    ensures t == [] ==> !Earlier(s, t)
    ensures s == [] && t != [] ==> Earlier(s, t)
    ensures s != [] && t != [] && Place(s[0]) != Place(t[0]) ==> (Earlier(s, t) <==> Place(s[0]) < Place(t[0]))
  {
    hide Place;
    if s == [] && t != [] { assert SameTo(s, t, 0); }
    if s != [] && t != [] && Place(s[0]) != Place(t[0]) {
      if Place(s[0]) < Place(t[0]) { assert SameTo(s, t, 0); }
    }
  }

  lemma {:induction false} ComparesEarlier(s: string, t: string)
    ensures Strcasecmp(s, t) < 0 <==> Earlier(s, t)
  {
    hide Place, Fold, Earlier;
    EarlierFirst(s, t);
    if s != [] && t != [] {
      PlaceIsFold(s[0]);
      PlaceIsFold(t[0]);
      if Place(s[0]) == Place(t[0]) {
        EarlierRest(s, t);
        ComparesEarlier(s[1..], t[1..]);
      }
    }
  }

  lemma ComparesWithin(s: string, t: string)
    ensures PrefixCompare(s, t) < 0 <==> EarlierWithin(s, t)
  {
    hide Place, Strcasecmp;
    var n := Smallest(s, t);
    var x, y := s[..n], t[..n];
    ComparesEarlier(x, y);
    if k: nat :| k <= |x| && k < |y| && SameTo(x, y, k) && (k == |x| || Place(x[k]) < Place(y[k])) {
      assert SameTo(s, t, k) && Place(s[k]) < Place(t[k]);
    }
    if k: nat :| k < |s| && k < |t| && SameTo(s, t, k) && Place(s[k]) < Place(t[k]) {
      assert SameTo(x, y, k) && Place(x[k]) < Place(y[k]);
    }
  }

  // ----- File titles

  predicate NoSlash(s: string) {
    forall i :: 0 <= i < |s| ==> s[i] != '/' && s[i] != '\\'
  }

  lemma {:induction false} LastIndexIs(s: string, c: char, i: nat)
    requires i < |s| && s[i] == c && forall j :: i < j < |s| ==> s[j] != c
    ensures LastIndex(s, c) == i
  {
  }

  lemma FileNameIs(folder: string, slash: char, name: string)
    requires (slash == '/' || slash == '\\') && NoSlash(name)
    ensures FileName(folder + [slash] + name) == name
    ensures FileName(name) == name
  {
    var path := folder + [slash] + name;
    var at := |folder|;
    assert path[at] == slash;
    assert forall i :: at < i < |path| ==> path[i] == name[i - at - 1];
    LastIndexIs(path, slash, at);
    assert LastIndex(path, '/') <= at && LastIndex(path, '\\') <= at;
    assert path[at + 1..] == name;
    assert name[0..] == name;
  }

  lemma BeforeLastDot(path: string, name: string, extension: string)
    requires FileName(path) == name + "." + extension && '.' !in extension
    ensures FileTitleOf(path) == name
  {
    hide FileName, LastIndex;
    var full := name + "." + extension;
    assert full[|name|] == '.';
    assert forall j :: |name| < j < |full| ==> full[j] == extension[j - |name| - 1];
    LastIndexIs(full, '.', |name|);
    assert full[..|name|] == name;
  }

  lemma WithoutDot(path: string)
    requires '.' !in FileName(path)
    ensures FileTitleOf(path) == FileName(path)
  {
    hide FileName;
  }

  lemma NoSlashTogether(s: string, t: string)
    requires NoSlash(s) && NoSlash(t)
    ensures NoSlash(s + "." + t)
  {
  }

  /** The title of a file is its name after the last slash and before the last dot. */
  lemma FileTitleIs(folder: string, slash: char, name: string, extension: string)
    requires (slash == '/' || slash == '\\') && NoSlash(name) && NoSlash(extension) && '.' !in extension
    ensures FileTitleOf(folder + [slash] + (name + "." + extension)) == name
    ensures '.' !in name ==> FileTitleOf(folder + [slash] + name) == name
  {
    hide *;
    NoSlashTogether(name, extension);
    FileNameIs(folder, slash, name + "." + extension);
    FileNameIs(folder, slash, name);
    BeforeLastDot(folder + [slash] + (name + "." + extension), name, extension);
    if '.' !in name { WithoutDot(folder + [slash] + name); }
  }

  // ----- The columns

  /** Which game is sorted before which: by the key of the column, and by title where keys are equal. */
  lemma ColumnsRead(l: Entry, r: Entry)
    ensures var byTitle := Earlier(l.title, r.title);
            && (LessThan(l, r, Title) <==> byTitle)
            && (LessThan(l, r, Icon) <==> byTitle)
            && (LessThan(l, r, Serial) <==> if l.serial == r.serial then byTitle else Earlier(l.serial, r.serial))
            && (LessThan(l, r, SystemName) <==> if l.system == r.system then byTitle else Earlier(l.system, r.system))
            && (LessThan(l, r, Genre) <==> if l.genre == r.genre then byTitle else Earlier(l.genre, r.genre))
            && (LessThan(l, r, Developer) <==> if l.developer == r.developer then byTitle else Earlier(l.developer, r.developer))
            && (LessThan(l, r, Publisher) <==> if l.publisher == r.publisher then byTitle else Earlier(l.publisher, r.publisher))
            && (LessThan(l, r, FileTitle) <==>
                  var s, t := FileTitleOf(l.path), FileTitleOf(r.path); if s == t then byTitle else EarlierWithin(s, t))
            && !LessThan(l, r, Cover)
  {
    hide Earlier, Strcasecmp, EarlierWithin, FileTitleOf;
    ComparesEarlier(l.title, r.title);
    ComparesEarlier(l.serial, r.serial);
    ComparesEarlier(l.system, r.system);
    ComparesEarlier(l.genre, r.genre);
    ComparesEarlier(l.developer, r.developer);
    ComparesEarlier(l.publisher, r.publisher);
    ComparesWithin(FileTitleOf(l.path), FileTitleOf(r.path));
  }

  /** Smaller files, earlier dates and shorter times come first. */
  lemma NumbersRead(l: Entry, r: Entry)
    ensures l.fileSize < r.fileSize ==> LessThan(l, r, FileSize) && !LessThan(r, l, FileSize)
    ensures l.uncompressedSize < r.uncompressedSize ==>
              LessThan(l, r, UncompressedSize) && !LessThan(r, l, UncompressedSize)
    ensures l.releaseDate < r.releaseDate ==> LessThan(l, r, Year) && !LessThan(r, l, Year)
    ensures l.totalPlayed < r.totalPlayed ==> LessThan(l, r, TimePlayed) && !LessThan(r, l, TimePlayed)
    ensures l.lastPlayed < r.lastPlayed ==> LessThan(l, r, LastPlayed) && !LessThan(r, l, LastPlayed)
    ensures var byTitle := Earlier(l.title, r.title);
            && (l.fileSize == r.fileSize ==> (LessThan(l, r, FileSize) <==> byTitle))
            && (l.uncompressedSize == r.uncompressedSize ==> (LessThan(l, r, UncompressedSize) <==> byTitle))
            && (l.releaseDate == r.releaseDate ==> (LessThan(l, r, Year) <==> byTitle))
            && (l.totalPlayed == r.totalPlayed ==> (LessThan(l, r, TimePlayed) <==> byTitle))
            && (l.lastPlayed == r.lastPlayed ==> (LessThan(l, r, LastPlayed) <==> byTitle))
  {
    hide Earlier, Strcasecmp;
    ComparesEarlier(l.title, r.title);
  }

  /** With fewer than sixteen players, games for fewer come first: by the least number, and then by the
      greatest. */
  lemma PlayersRead(l: Entry, r: Entry)
    requires l.minPlayers < 16 && l.maxPlayers < 16 && r.minPlayers < 16 && r.maxPlayers < 16
    ensures LessThan(l, r, Players)
       <==> || l.minPlayers < r.minPlayers
            || (l.minPlayers == r.minPlayers && l.maxPlayers < r.maxPlayers)
            || (l.minPlayers == r.minPlayers && l.maxPlayers == r.maxPlayers && Earlier(l.title, r.title))
  {
    hide Earlier, Strcasecmp;
    ComparesEarlier(l.title, r.title);
  }
}
