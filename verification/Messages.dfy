/** A JDSS message as far as exchange, metrics and bridging look at it. */
module Messages {
  datatype Message = Message(originator: string, messageId: string, kind: string, sequence: nat,
                             classification: nat, callsign: string)
}
