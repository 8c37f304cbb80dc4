/**
 * The departments model: create and update with a duplicate-name check,
 * and an unconditional remove.
 */
module Departments {
  import opened Schema

  /** Some department other than `except` is called `name`. */
  predicate NameTaken(departments: map<DepartmentId, Department>, name: string, except: Option<DepartmentId>)
  {
    exists k :: k in departments && departments[k].name == name && Some(k) != except
  }

  /** `create({ name, description })`: the description is stored as given (absent is NULL). */
  method Create(db: Database, name: string, description: Option<string>) returns (r: Result<DepartmentId>)
    requires db.Valid()
    modifies db`departments, db`nextDepartmentId
    ensures db.Valid()
    ensures r.Failure? <==> NameTaken(old(db.departments), name, None)
    ensures r.Failure? ==> r.error == DuplicateDepartment && HttpStatus(r.error) == None && unchanged(db)
    ensures r.Success? ==>
      && r.value !in old(db.departments)
      && db.departments == old(db.departments)[r.value := Department(name, description)]
  {
    if exists k :: k in db.departments && db.departments[k].name == name {
      return Failure(DuplicateDepartment);
    }
    var id := db.nextDepartmentId;
    db.departments := db.departments[id := Department(name, description)];
    db.nextDepartmentId := db.nextDepartmentId + 1;
    r := Success(id);
  }

  /**
   * `update(id, { name, description })`: fails when another department has
   * the name; otherwise rewrites that one row, if it exists.
   */
  method Update(db: Database, id: DepartmentId, name: string, description: Option<string>) returns (r: Result<()>)
    requires db.Valid()
    modifies db`departments
    ensures db.Valid()
    ensures r.Failure? <==> NameTaken(old(db.departments), name, Some(id))
    ensures r.Failure? ==> r.error == DuplicateDepartment && unchanged(db)
    ensures r.Success? ==>
      db.departments == (if id in old(db.departments) then old(db.departments)[id := Department(name, description)] else old(db.departments))
  {
    if exists k :: k in db.departments && db.departments[k].name == name && k != id {
      return Failure(DuplicateDepartment);
    }
    if id in db.departments {
      db.departments := db.departments[id := Department(name, description)];
    }
    r := Success(());
  }

  /**
   * `remove(id)`: deletes the row if there is one and always reports
   * success; there is no in-use check and no not-found result.
   */
  method Remove(db: Database, id: DepartmentId) returns (success: bool)
    requires db.Valid()
    modifies db`departments
    ensures db.Valid()
    ensures success
    ensures db.departments == old(db.departments) - {id}
  {
    db.departments := db.departments - {id};
    success := true;
  }
}
