/** The block list backed by a file that may be edited while the coordinator runs. */
module FileBlocklist {
  import opened Wrappers
  import B = Blocklist

  /** (modification time, size) */
  type Stamp = (int, int)

  /** What the file system answers at one look. */
  datatype FileState =
    | Missing
    | StatFails
    | ReadFails(stamp: Stamp)
    | Undecodable(stamp: Stamp)
    | Readable(stamp: Stamp, lines: seq<string>)

  ghost predicate ParsedFrom(bl: B.Blocklist, lines: seq<string>) {
    && (forall o :: o in bl.owners <==> B.OwnerEntry(o) in B.Entries(lines))
    && (forall r :: r in bl.repos <==> B.RepoEntry(r) in B.Entries(lines))
  }

  class FileBlocklist {
    const interval: real
    var list: B.Blocklist
    var stamp: Option<Stamp>
    var checkedAt: Option<real>   // None before the first look
    ghost var loaded: Option<seq<string>>   // the lines of the last successful read

    ghost predicate Valid()
      reads this
    {
      && B.WellFormed(list)
      && (loaded.None? ==> list == B.EMPTY && stamp.None?)
      && (loaded.Some? ==> ParsedFrom(list, loaded.value) && stamp.Some?)
    }

    predicate Due(now: real)
      reads this
    {
      checkedAt.None? || now - checkedAt.value >= interval
    }

    constructor (interval: real)
      ensures Valid() && this.interval == interval && loaded == None && checkedAt == None
    {
      this.interval := interval;
      list := B.EMPTY;
      stamp := None;
      checkedAt := None;
      loaded := None;
    }

    /** The list in force, or None when decoding the file raises. Only a successful read of a
        changed file replaces the list; whatever else happens keeps the last one. */
    method Current(now: real, file: FileState) returns (r: Option<B.Blocklist>)
      requires Valid()
      modifies this
      ensures Valid()
      ensures r == if old(Due(now)) && Raises(old(stamp), file) then None else Some(list)
      ensures var reload := old(Due(now)) && file.Readable? && old(stamp) != Some(file.stamp);
              && (reload ==> loaded == Some(file.lines) && stamp == Some(file.stamp))
              && (!reload ==> list == old(list) && loaded == old(loaded) && stamp == old(stamp))
      ensures checkedAt == if old(Due(now)) then Some(now) else old(checkedAt)
    {
      if Due(now) {
        checkedAt := Some(now);
        var raised := Reload(file);
        if raised { return None; }
      }
      r := Some(list);
    }

    method Reload(file: FileState) returns (raised: bool)
      requires Valid()
      modifies this`list, this`stamp, this`loaded
      ensures Valid() && raised == Raises(old(stamp), file)
      ensures var reload := file.Readable? && old(stamp) != Some(file.stamp);
              && (reload ==> loaded == Some(file.lines) && stamp == Some(file.stamp))
              && (!reload ==> list == old(list) && loaded == old(loaded) && stamp == old(stamp))
    {
      if file.Missing? || file.StatFails? || Some(file.stamp) == stamp || file.ReadFails? {
        return false;
      }
      if file.Undecodable? { return true; }
      list := B.ParseList(file.lines);
      stamp := Some(file.stamp);
      loaded := Some(file.lines);
      return false;
    }
  }

  /** Only a changed file that is read but not decoded raises; missing or unreadable files do not. */
  predicate Raises(stamp: Option<Stamp>, file: FileState) {
    file.Undecodable? && stamp != Some(file.stamp)
  }

  /** What a reload to other lines lets back in: exactly the entries the new lines do not name. A
      file cut short that is still readable is such a reload, so it does re-admit what its lost
      lines named; nothing is re-admitted exactly when every entry is still named. */
  lemma ReloadReadmits(bl: B.Blocklist, lines: seq<string>, bl': B.Blocklist, lines': seq<string>)
    requires ParsedFrom(bl, lines) && ParsedFrom(bl', lines')
    ensures forall o :: o in bl.owners && o !in bl'.owners <==>
                        B.OwnerEntry(o) in B.Entries(lines) && B.OwnerEntry(o) !in B.Entries(lines')
    ensures forall r :: r in bl.repos && r !in bl'.repos <==>
                        B.RepoEntry(r) in B.Entries(lines) && B.RepoEntry(r) !in B.Entries(lines')
    ensures (bl.owners <= bl'.owners && bl.repos <= bl'.repos) <==>
            forall e :: e in B.Entries(lines) && !e.Ignored? ==> e in B.Entries(lines')
  {
    if bl.owners <= bl'.owners && bl.repos <= bl'.repos {
      forall e | e in B.Entries(lines) && !e.Ignored? ensures e in B.Entries(lines') {
        match e
        case OwnerEntry(o) => assert o in bl.owners;
        case RepoEntry(r) => assert r in bl.repos;
      }
    }
  }

  /** A file that loses its last line re-admits the owner that line names, unless another line
      names it too. */
  lemma TruncationReadmits(bl: B.Blocklist, lines: seq<string>, bl': B.Blocklist, last: string, owner: string)
    requires ParsedFrom(bl, lines + [last]) && ParsedFrom(bl', lines) && B.ParseEntry(last) == B.OwnerEntry(owner)
    ensures owner in bl.owners
    ensures owner !in bl'.owners <==> B.OwnerEntry(owner) !in B.Entries(lines)
  {
    assert B.Entries(lines + [last])[|lines|] == B.OwnerEntry(owner);
  }
}
