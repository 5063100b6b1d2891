/** Outcomes of the driver's operations: a value, or the failure the JavaScript code
    throws or rejects with. */
module Results {

  datatype Option<T> = None | Some(value: T)

  /** Every way an operation of the driver can end without a value. */
  datatype Failure =
    | NotConnected         // 'Device is not connected.' thrown by the guarded commands
    | NoDeviceFound        // 'No HID device found.' thrown by connect
    | OpenFailed           // device.open() rejected inside connect
    | WriteFailed          // device.sendReport(...) rejected
    | FirstChunkTimeout    // no input report arrived before the 10 s response timer fired
    | Stalled              // reports arrived (clearing that timer) but never completed the reply
    | ContinuationTimeout  // no input report arrived before a 5 s continuation timer fired

  datatype Result<T> = Ok(value: T) | Err(error: Failure)
}
