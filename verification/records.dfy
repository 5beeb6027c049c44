/** The data the views receive from the backend and the signed-in user. */
module Records {

  const ADMIN := "ADMIN"
  const HR := "HR"
  const MANAGER := "MANAGER"
  const EMPLOYEE := "EMPLOYEE"

  /** One row of `/api/users` or `/api/employees`. Both endpoints return
      objects with a subset of these fields; a field the object lacks is
      the empty string here, which every use in the views treats the same
      way as a missing one. */
  datatype Record = Record(
    username: string,
    name: string,
    email: string,
    role: string,
    status: string,
    startDate: string)

  /** The signed-in user object handed to the application by the login page. */
  datatype User = User(username: string, name: string, role: string, firstLogin: bool)

  datatype Option<T> = None | Some(value: T)

  /** What a `fetch` to the backend came back with: a response whose `ok`
      flag is set, one whose flag is clear, or a rejected promise. */
  datatype Outcome = Ok | NotOk | NetworkError
}
