/**
 * The errors the paste engine can see. Each stands for an error value of the
 * Go program; the model keeps only which kind of error it is.
 */
module Errors {

  datatype Error =
    | RecordNotFound      // gorm.ErrRecordNotFound: no row matched the query
    | DuplicateKey        // the database rejected an insert whose primary key already exists
    | SequenceExhausted   // the id sequence has no uint64 value left
    | RandReadFailed      // crypto/rand.Read could not fill the buffer
    | HashFailed          // bcrypt.GenerateFromPassword failed
    | MalformedHash       // bcrypt.CompareHashAndPassword failed for a reason other than a mismatch
}
