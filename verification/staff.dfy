/** Employees and who may see whom: the role filter of the employee admin
    (`get_employee_queryset_by_role`) and the employee list of the payroll
    page. */
module Staff {

  /** An `Employee` as the filters see it; `groups` are the names of the
      user's permission groups. */
  datatype Employee = Employee(
    employeeNo: string,
    lastName: string,
    firstName: string,
    placeWork: string,
    email: string,
    isActive: bool,
    isSuperuser: bool,
    groups: set<string>)

  /** The elements of `xs` that satisfy `p`, in their order. */
  function Select(xs: seq<Employee>, p: Employee -> bool): (r: seq<Employee>)
    ensures |r| <= |xs|
    ensures forall e :: e in r <==> e in xs && p(e)
  {
    if |xs| == 0 then []
    else
      var init := Select(xs[..|xs| - 1], p);
      var last := xs[|xs| - 1];
      assert forall e :: e in xs <==> e in xs[..|xs| - 1] || e == last;
      if p(last) then init + [last] else init
  }

  /** The groups that see every employee in the admin: 사장, 인사팀, 관리부장. */
  predicate SeesEveryone(user: Employee)
  {
    user.isSuperuser || "사장" in user.groups || "인사팀" in user.groups || "관리부장" in user.groups
  }

  /** A 부장 sees the employees of their own workplace. */
  predicate IsDepartmentHead(user: Employee)
  {
    "부장" in user.groups
  }

  /** `get_employee_queryset_by_role`: everyone for the privileged, the same
      workplace for a 부장, otherwise only the user's own record. */
  function VisibleByRole(user: Employee, qs: seq<Employee>): (r: seq<Employee>)
    ensures |r| <= |qs|
    ensures forall e :: e in r <==>
              e in qs
              && (SeesEveryone(user)
                  || (IsDepartmentHead(user) && e.placeWork == user.placeWork)
                  || (!IsDepartmentHead(user) && e.employeeNo == user.employeeNo))
  {
    if SeesEveryone(user) then Select(qs, (e: Employee) => true)
    else if IsDepartmentHead(user) then Select(qs, (e: Employee) => e.placeWork == user.placeWork)
    else Select(qs, (e: Employee) => e.employeeNo == user.employeeNo)
  }

  /** Every user sees their own record, and a privileged user sees everything
      anyone else sees. */
  lemma OwnRecordVisible(user: Employee, other: Employee, admin: Employee, qs: seq<Employee>)
    requires SeesEveryone(admin)
    ensures user in qs ==> user in VisibleByRole(user, qs)
    ensures forall e :: e in VisibleByRole(other, qs) ==> e in VisibleByRole(admin, qs)
  {
  }

  /** The payroll page's groups that see every active employee: 社長, 人事, 経理. */
  predicate SeesAllPayslips(user: Employee)
  {
    user.isSuperuser || "社長" in user.groups || "人事" in user.groups || "経理" in user.groups
  }

  /** The employees listed on the payroll page: every active employee for the
      privileged, otherwise the user's own record if it is active. */
  function PayrollEmployees(user: Employee, all: seq<Employee>): (r: seq<Employee>)
    ensures forall e :: e in r ==> e in all && e.isActive
    ensures forall e :: e in r <==>
              e in all && e.isActive && (SeesAllPayslips(user) || e.employeeNo == user.employeeNo)
  {
    if SeesAllPayslips(user) then Select(all, (e: Employee) => e.isActive)
    else Select(all, (e: Employee) => e.isActive && e.employeeNo == user.employeeNo)
  }

  /** The payroll page and the admin use different group names: a 人事 member
      who is neither superuser nor in a Korean-named group sees every payslip
      but only their own record in the employee admin. */
  lemma PayrollAndAdminGroupsDiffer(user: Employee, other: Employee)
    requires !user.isSuperuser && user.groups == {"人事"}
    requires other.isActive && other.employeeNo != user.employeeNo
    ensures other in PayrollEmployees(user, [user, other])
    ensures other !in VisibleByRole(user, [user, other])
  {
  }
}
