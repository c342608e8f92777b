/** Which observers an iteration or a notification in progress reaches. */
module ObserverPolicy {
  datatype Policy = All | ExistingOnly
}
