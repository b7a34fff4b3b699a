/** The `banking.domain.Customer` that a bank creates. Its source is not part of this model;
    the bank only constructs it from two names, so that is all this stand-in keeps. */
module Domain {

  class Customer {
    const firstName: string
    const lastName: string

    constructor(firstName: string, lastName: string)
      ensures this.firstName == firstName && this.lastName == lastName
    {
      this.firstName := firstName;
      this.lastName := lastName;
    }
  }
}
