module Notices {
  /** The user-facing notices of `login` and `register`, in the server's
      Russian wording (English glosses below). */
  datatype Notice =
    | FillAllFields | WrongLogin | AlreadyLoggedIn
    | NameTooShort | PasswordTooShort | NameTaken | AccountCreated

  /** The text the server sends for each notice, as its Unicode code points. */
  function Text(n: Notice): seq<int> {
    match n
    // "fill in all fields"
    case FillAllFields => ([0x417, 0x430, 0x43F, 0x43E, 0x43B, 0x43D, 0x438, 0x442, 0x435, 0x20, 0x432, 0x441, 0x435, 0x20, 0x43F, 0x43E, 0x43B, 0x44F])
    // "wrong login/password"
    case WrongLogin => ([0x41D, 0x435, 0x432, 0x435, 0x440, 0x43D, 0x44B, 0x439, 0x20, 0x43B, 0x43E, 0x433, 0x438, 0x43D, 0x2F, 0x43F, 0x430, 0x440, 0x43E, 0x43B, 0x44C])
    // "already signed in"
    case AlreadyLoggedIn => ([0x423, 0x436, 0x435, 0x20, 0x432, 0x20, 0x441, 0x438, 0x441, 0x442, 0x435, 0x43C, 0x435])
    // "name > 3 characters"
    case NameTooShort => ([0x418, 0x43C, 0x44F, 0x20, 0x3E, 0x20, 0x33, 0x20, 0x441, 0x438, 0x43C, 0x432, 0x43E, 0x43B, 0x43E, 0x432])
    // "password > 4 characters"
    case PasswordTooShort => ([0x41F, 0x430, 0x440, 0x43E, 0x43B, 0x44C, 0x20, 0x3E, 0x20, 0x34, 0x20, 0x441, 0x438, 0x43C, 0x432, 0x43E, 0x43B, 0x43E, 0x432])
    // "name taken"
    case NameTaken => ([0x418, 0x43C, 0x44F, 0x20, 0x437, 0x430, 0x43D, 0x44F, 0x442, 0x43E])
    // "account created!"
    case AccountCreated => ([0x410, 0x43A, 0x43A, 0x430, 0x443, 0x43D, 0x442, 0x20, 0x441, 0x43E, 0x437, 0x434, 0x430, 0x43D, 0x21])
  }

  /** Each notice has its own text (the seven texts even differ in length),
      so a client can tell every outcome of `login` and `register` apart
      from the payload alone. */
  lemma TextsDistinct(n: Notice, m: Notice)
    ensures n != m ==> |Text(n)| != |Text(m)| && Text(n) != Text(m)
  {
  }
}
