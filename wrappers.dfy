/** Failure-carrying results. A fatal Kaldi error (KALDI_ERR, a failed
    KALDI_ASSERT) is modelled as an `Err` value that the caller must not
    continue from. */
module Wrappers {

  datatype Option<+T> = None | Some(value: T)

  datatype Result<+T> = Ok(value: T) | Err(msg: string)
}
