/** The one record the application manages, and the optional value used for
    `Contact | null` and `string | null` state. */
module Contacts {

  datatype Option<+T> = None | Some(value: T)

  /** A contact: `{ name, email, phone }`. The email serves as the list key and as
      the field that correlates updates and deletions. */
  datatype Contact = Contact(name: string, email: string, phone: string)
}
