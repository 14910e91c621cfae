/**
 The coordinator's tables and the effect of each database transaction on them
 (backend/assemblage/db/models.py, backend/assemblage/db/store.py).
 */
module Tables {
  import opened Wrappers
  import opened Text

  datatype CloneStatus = NotStarted | CloneProcessing | CloneFailed | CloneSuccess | CloneTimeout | CloneCommandFailed

  datatype BuildStatus =
    | Init | BuildProcessing | BuildFailed | BuildSuccess | BuildTimeout
    | Blacklisted | OutdatedMsg | Excluded | BuildCommandFailed

  /** The nine columns that identify a build option. */
  datatype Identity = Identity(
    platform: string, language: string, compiler: string, flag: string, buildSystem: string,
    command: string, library: string, buildType: string, backend: string)

  datatype BuildOpt = BuildOpt(identity: Identity, enable: bool)

  datatype Repo = Repo(url: string, name: string, language: string, buildSystem: string)

  datatype Row = Row(
    repo: nat, opt: nat, clone: CloneStatus, cloneMsg: string, build: BuildStatus, buildMsg: string,
    buildTime: int, sha: string, stamp: int)

  datatype IrRecord = IrRecord(scope: string, key: string, files: nat, crates: nat, raw: nat, stored: nat)

  /** Every id in use is below the next id of its table. */
  datatype Db = Db(
    repos: map<nat, Repo>, opts: map<nat, BuildOpt>, rows: map<nat, Row>, ir: map<(nat, string), IrRecord>,
    nextRepo: nat, nextOpt: nat, nextRow: nat)

  const EMPTY_DB := Db(map[], map[], map[], map[], 0, 0, 0)

  // --- which options a repository belongs to ---------------------------------------------

  const C_FAMILY: set<string> := {"c", "cpp", "c++"}

  function Canon(language: string): string {
    if Lower(language) in C_FAMILY then "c++" else Lower(language)
  }

  predicate LanguagesMatch(repoLanguage: string, optLanguage: string) {
    Canon(repoLanguage) == Canon(optLanguage)
  }

  /** The test `register_build_opt` makes of each existing repository. */
  predicate CoveredAtRegister(reg: Identity, repo: Repo) {
    (Contains(repo.buildSystem, reg.buildSystem) || reg.buildSystem == "all")
    && LanguagesMatch(repo.language, reg.language)
  }

  /** The test `insert_repos` makes of each existing option. */
  predicate CoveredAtInsert(reg: Identity, repo: Repo) {
    (Contains(reg.buildSystem, repo.buildSystem) || reg.buildSystem == "all")
    && LanguagesMatch(repo.language, reg.language)
  }

  // --- transactions -----------------------------------------------------------------------

  function NewRow(repo: nat, opt: nat, stamp: int): Row {
    Row(repo, opt, NotStarted, "", Init, "", -1, "", stamp)
  }

  /** The lowest option id below `n` with this identity. */
  function FindOpt(opts: map<nat, BuildOpt>, reg: Identity, n: nat): Option<nat> {
    if n == 0 then None
    else
      var r := FindOpt(opts, reg, n - 1);
      if r.Some? then r
      else if n - 1 in opts && opts[n - 1].identity == reg then Some(n - 1) else None
  }

  /** Rows for a new option, over the repositories with an id below `k`. */
  function Backfill(db: Db, reg: Identity, opt: nat, k: nat): (r: (map<nat, Row>, nat)) {
    if k == 0 then (db.rows, db.nextRow)
    else
      var (rows, next) := Backfill(db, reg, opt, k - 1);
      if k - 1 in db.repos && CoveredAtRegister(reg, db.repos[k - 1])
      then (rows[next := NewRow(k - 1, opt, -1)], next + 1) else (rows, next)
  }

  /** Rows for a new repository, over the options with an id below `k`. */
  function Enroll(db: Db, repo: Repo, id: nat, now: int, k: nat): (r: (map<nat, Row>, nat)) {
    if k == 0 then (db.rows, db.nextRow)
    else
      var (rows, next) := Enroll(db, repo, id, now, k - 1);
      if k - 1 in db.opts && CoveredAtInsert(db.opts[k - 1].identity, repo)
      then (rows[next := NewRow(id, k - 1, now)], next + 1) else (rows, next)
  }

  function RegisterBuildOpt(db: Db, reg: Identity): (Db, nat) {
    match FindOpt(db.opts, reg, db.nextOpt)
    case Some(id) => (db.(opts := db.opts[id := BuildOpt(reg, true)]), id)
    case None =>
      var (rows, next) := Backfill(db, reg, db.nextOpt, db.nextRepo);
      (db.(opts := db.opts[db.nextOpt := BuildOpt(reg, true)], nextOpt := db.nextOpt + 1,
           rows := rows, nextRow := next), db.nextOpt)
  }

  predicate UrlTaken(repos: map<nat, Repo>, url: string) {
    exists r | r in repos :: repos[r].url == url
  }

  /** A URL already stored leaves the tables as they were. */
  function InsertRepo(db: Db, repo: Repo, now: int): Db {
    if UrlTaken(db.repos, repo.url) then db
    else
      var (rows, next) := Enroll(db, repo, db.nextRepo, now, db.nextOpt);
      db.(repos := db.repos[db.nextRepo := repo], nextRepo := db.nextRepo + 1, rows := rows, nextRow := next)
  }

  /** The fields one status update writes; absent ones stay. */
  datatype Update = Update(
    clone: Option<CloneStatus>, cloneMsg: Option<string>, build: Option<BuildStatus>,
    buildTime: Option<int>, buildMsg: Option<string>, sha: string)

  function Or<T>(o: Option<T>, old_: T): T {
    match o case Some(v) => v case None => old_
  }

  function UpdatedRow(row: Row, u: Update, now: int): Row {
    if u.build.None? && u.clone.None? then row
    else
      row.(
        stamp := now,
        build := Or(u.build, row.build),
        buildTime := if u.build.Some? then Or(u.buildTime, row.buildTime) else row.buildTime,
        buildMsg := if u.build.Some? then Or(u.buildMsg, row.buildMsg) else row.buildMsg,
        clone := Or(u.clone, row.clone),
        cloneMsg := if u.clone.Some? then Or(u.cloneMsg, row.cloneMsg) else row.cloneMsg,
        sha := if u.sha != "" then u.sha else row.sha)
  }

  function UpdateStatus(db: Db, id: nat, u: Update, now: int): Db {
    if id in db.rows then db.(rows := db.rows[id := UpdatedRow(db.rows[id], u, now)]) else db
  }

  function MarkProcessing(db: Db, id: nat, now: int): Db {
    if id in db.rows then db.(rows := db.rows[id := db.rows[id].(clone := CloneProcessing, stamp := now)]) else db
  }

  predicate IsInitSibling(row: Row, id: nat, repo: nat, except: nat) {
    row.repo == repo && id != except && row.build == Init
  }

  function FailSiblings(db: Db, repo: nat, except: nat, msg: string, now: int): Db {
    db.(rows := map i | i in db.rows ::
      if IsInitSibling(db.rows[i], i, repo, except)
      then db.rows[i].(build := BuildFailed, buildMsg := msg, stamp := now) else db.rows[i])
  }

  /** Insert-or-update of the rows of one IR report, in order. */
  function UpsertIr(ir: map<(nat, string), IrRecord>, id: nat, stages: seq<(string, IrRecord)>): map<(nat, string), IrRecord> {
    if stages == [] then ir
    else
      var last := stages[|stages| - 1];
      UpsertIr(ir, id, stages[..|stages| - 1])[(id, last.0) := last.1]
  }

  // --- runs ---------------------------------------------------------------------------------

  /** One committed transaction. */
  datatype Op =
    | OpRegister(reg: Identity)
    | OpInsert(repo: Repo, now: int)
    | OpMark(id: nat, now: int)
    | OpUpdate(id: nat, u: Update, now: int)
    | OpFailSiblings(repoId: nat, except: nat, msg: string, now: int)
    | OpIr(id: nat, stages: seq<(string, IrRecord)>)

  function Apply(db: Db, op: Op): Db {
    match op
    case OpRegister(reg) => RegisterBuildOpt(db, reg).0
    case OpInsert(repo, now) => InsertRepo(db, repo, now)
    case OpMark(id, now) => MarkProcessing(db, id, now)
    case OpUpdate(id, u, now) => UpdateStatus(db, id, u, now)
    case OpFailSiblings(repo, except, msg, now) => FailSiblings(db, repo, except, msg, now)
    case OpIr(id, stages) => if id in db.rows then db.(ir := UpsertIr(db.ir, id, stages)) else db
  }

  function Run(db: Db, ops: seq<Op>): Db {
    if ops == [] then db else Apply(Run(db, ops[..|ops| - 1]), ops[|ops| - 1])
  }

  lemma {:induction false} RunConcat(db: Db, a: seq<Op>, b: seq<Op>)
    ensures Run(db, a + b) == Run(Run(db, a), b)
  {
    if b == [] {
      assert a + b == a;
    } else {
      var n := |b| - 1;
      RunConcat(db, a, b[..n]);
      assert (a + b)[..|a + b| - 1] == a + b[..n];
    }
  }
}
