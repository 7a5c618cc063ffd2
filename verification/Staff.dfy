/** Employee records as the company system stores them, and the two ways it compares them. */
module Staff {

  /** The company number that all stored copies of one employee share. */
  class CompanyCell {
    var id: int

    constructor (id: int)
      ensures this.id == id
    {
      this.id := id;
    }
  }

  datatype Employee = Employee(id: int, salary: int, grade: int, company: CompanyCell)

  /** operator<: by salary, then by id. operator> is `Less` with its arguments exchanged. */
  predicate Less(e1: Employee, e2: Employee) {
    e1.salary < e2.salary || (e1.salary == e2.salary && e1.id < e2.id)
  }

  /** operator==: by id alone, whatever the salaries are. */
  predicate SameId(e1: Employee, e2: Employee) {
    e1.id == e2.id
  }

  /** Neither smaller nor greater: the last branch of a three-way descent. */
  predicate SamePlace(e1: Employee, e2: Employee) {
    e1.salary == e2.salary && e1.id == e2.id
  }

  function Promoted(e: Employee, bumpGrade: int): Employee {
    e.(grade := e.grade + bumpGrade)
  }

  datatype Status = SUCCESS | FAILURE | INVALID_INPUT
}
