/** The entries of the event log. */
module EventLog {
  const TOPIC_ADD := "snapshot.add"
  const TOPIC_REMOVE := "snapshot.remove"
  const TOPIC_BACKUP := "snapshot.backup"

  datatype Event = Event(topic: string, ref: string)
}
