/** What a handler sends, as a record: the packets and broadcasts of the
    session, whose exact text is built by generators outside this model
    (GenerateSay, GenerateMsg, GenerateInfo, ...), and the calls it makes
    into persistence, inventory and map management. */
module Events {

  /** Broadcast selectors of a map instance or of the server. */
  datatype ReceiverType =
    | All
    | AllExceptMe
    | AllExceptFactionAndMe
    | OnlyFaction
    | AllNoEmoBlocked
    | OnlySomeone
    | InGroup          // ReceiverType.Group: the members of the sender's group

  datatype Audience =
    | Self                        // Session.SendPacket
    | Player(id: int)             // the session of another connected character
    | OnMap(receiver: ReceiverType)   // CurrentMapInstance.Broadcast
    | Server                      // ServerManager.Broadcast to every session
    | Remote(id: int)             // a character on another channel, by id
    | RemoteByName(name: string)  // a character on another channel, by name

  datatype Event =
    | Raw(to: Audience, text: string)              // a packet whose text the handler writes out
    | Notice(to: Audience, key: string)            // a generated packet around a message key
    | Generated(to: Audience, generator: string)   // a packet a Generate* method builds from the state
    | Dialog(to: Audience, accept: string, decline: string, key: string) // a yes/no dialog
    | Speech(to: Audience, text: string, kind: int) // a say/spk packet carrying player text
    | Call(name: string, args: seq<int>)           // an operation of a collaborator
}
