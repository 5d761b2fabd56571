/** Creating and deleting branches (`sys_branches`), with the two guards
    that keep terminals and users from pointing at a deleted branch. */
module BranchesService {
  import opened Wrappers
  import opened Text

  datatype Branch = Branch(name: string, code: string, address: Option<string>, createdBy: int, isActive: int)

  /** The tables involved: branches by id, and the `branch_id` of every
      terminal and every user. */
  datatype Db = Db(branches: map<int, Branch>, nextId: int, terminalBranches: seq<int>, userBranches: seq<int>)

  /** `SELECT COUNT(*) ... WHERE branch_id = ?` */
  function CountOf(refs: seq<int>, id: int): (n: nat)
    ensures n <= |refs|
    ensures n == 0 <==> id !in refs
  {
    if refs == [] then 0 else CountOf(refs[..|refs| - 1], id) + (if refs[|refs| - 1] == id then 1 else 0)
  }

  /** Ids are below the next auto-increment value, and every terminal and
      user points at an existing branch. */
  predicate Valid(db: Db) {
    (forall k :: k in db.branches ==> k < db.nextId) &&
    (forall b :: b in db.terminalBranches ==> b in db.branches) &&
    (forall b :: b in db.userBranches ==> b in db.branches)
  }

  function TerminalsMessage(count: nat): string {
    "No se puede eliminar la sucursal porque tiene " + NatToString(count) +
    " terminal(es) asociada(s). Primero reasigne o elimine las terminales."
  }

  function UsersMessage(count: nat): string {
    "No se puede eliminar la sucursal porque tiene " + NatToString(count) +
    " usuario(s) asociado(s). Primero reasigne o elimine los usuarios."
  }

  /** `createBranch`: the new branch is active. */
  function CreateBranch(db: Db, name: string, code: string, address: Option<string>, createdBy: int): (r: Db)
    ensures r.branches == db.branches[db.nextId := Branch(name, code, address, createdBy, 1)]
    ensures r.nextId == db.nextId + 1
    ensures r.terminalBranches == db.terminalBranches && r.userBranches == db.userBranches
    ensures Valid(db) ==> Valid(r) && db.nextId !in db.branches
  {
    Db(db.branches[db.nextId := Branch(name, code, address, createdBy, 1)], db.nextId + 1,
       db.terminalBranches, db.userBranches)
  }

  /** `deleteBranch`: refused while any terminal, then any user, points at
      the branch; otherwise the row is deleted. */
  function DeleteBranch(db: Db, id: int): (r: Result<Db>)
    ensures id in db.terminalBranches ==> r == Failure(TerminalsMessage(CountOf(db.terminalBranches, id)))
    ensures id !in db.terminalBranches && id in db.userBranches ==>
      r == Failure(UsersMessage(CountOf(db.userBranches, id)))
    ensures r.Success? <==> id !in db.terminalBranches && id !in db.userBranches
    ensures r.Success? ==> r.value == db.(branches := db.branches - {id})
  {
    var terminalCount := CountOf(db.terminalBranches, id);
    if terminalCount > 0 then Failure(TerminalsMessage(terminalCount))
    else
      var userCount := CountOf(db.userBranches, id);
      if userCount > 0 then Failure(UsersMessage(userCount))
      else Success(db.(branches := db.branches - {id}))
  }

  /** A deletion never leaves a terminal or a user pointing at a missing
      branch. */
  lemma DeletePreservesReferences(db: Db, id: int)
    requires Valid(db)
    ensures DeleteBranch(db, id).Success? ==> Valid(DeleteBranch(db, id).value)
  {
  }

  /** A branch nobody points at yet, such as one just created, can be
      deleted, which gives back the branches as they were. */
  lemma CreatedBranchCanBeDeleted(db: Db, name: string, code: string, address: Option<string>, createdBy: int)
    requires Valid(db)
    ensures var created := CreateBranch(db, name, code, address, createdBy);
      DeleteBranch(created, db.nextId).Success? &&
      DeleteBranch(created, db.nextId).value.branches == db.branches
  {
    var created := CreateBranch(db, name, code, address, createdBy);
    assert db.nextId !in db.terminalBranches;
    assert db.nextId !in db.userBranches;
    assert created.branches - {db.nextId} == db.branches;
  }
}
