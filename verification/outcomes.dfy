/** Result types shared by the hotel model: an optional value, and the outcome of
    a front-desk operation, which is either a value or one of the named failures. */
module Outcomes {

  datatype Option<+T> = None | Some(value: T)

  /** The ways a front-desk operation can be refused. */
  datatype Error =
    | NotFound       // no room carries the requested number
    | AlreadyBooked  // check-in on a room whose status is 1
    | AlreadyVacant  // check-out on a room whose status is 0
    | InvalidType    // a room type other than 'S' or 'L'
    | InvalidPhone   // a phone number whose length is not 10

  datatype Outcome<+T> = Ok(value: T) | Fail(error: Error)
}
