/** The signup form of `frontend/src/pages/Signup.jsx`: its zod schema and
    its default role. zod's e-mail pattern is not modelled; it is the
    predicate parameter `isEmail`. */
module SignupForm {
  import opened Text

  datatype SignupData = SignupData(name: string, email: string, password: string, role: string)

  datatype SignupField = Name | Email | Password | Role

  /** The form's `defaultValues`: the role selector starts at "User". */
  function Initial(): (d: SignupData)
    ensures d.role == "User"
  {
    SignupData("", "", "", "User")
  }

  /** The schema's verdict, as the set of fields that fail (zod reports
      every failing field): a name whose `length` (UTF-16 code units) is
      under 2, an address the e-mail pattern refuses, a password whose
      `length` is under 6, a role other than "User" or "Admin". */
  function Validate(d: SignupData, isEmail: string -> bool): (errors: set<SignupField>)
    ensures Name in errors <==> Utf16Length(d.name) < 2
    ensures Email in errors <==> !isEmail(d.email)
    ensures Password in errors <==> Utf16Length(d.password) < 6
    ensures Role in errors <==> d.role != "User" && d.role != "Admin"
  {
    (if Utf16Length(d.name) < 2 then {Name} else {})
    + (if !isEmail(d.email) then {Email} else {})
    + (if Utf16Length(d.password) < 6 then {Password} else {})
    + (if d.role != "User" && d.role != "Admin" then {Role} else {})
  }

  /** The form submits only data the schema accepts. */
  predicate Accepts(d: SignupData, isEmail: string -> bool) {
    Validate(d, isEmail) == {}
  }
}
