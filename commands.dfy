/** The command types shared by the DeGauss services: the status a job can
  * be in, the task record kept for a running script and the response a
  * service gives its controller. */
module Commands {
  import opened Wrappers

  datatype CommandStatus =
    | Processing
    | Rejected
    | Success
    | Failure
    | Duplicate
    | Queued
    | Removed
    | Requested
    | Unknown

  /** A script run. `hasProcess` stands for a non-null Process handle. */
  datatype CommandTask = CommandTask(
    commandGuid: string,
    command: string,
    hasProcess: bool,
    status: CommandStatus,
    standardOut: string,
    standardErr: string)

  /** A task as a caller first builds it: no process, status Unknown. */
  function NewTask(guid: string, command: string): (t: CommandTask)
    ensures t.commandGuid == guid && t.command == command
    ensures !t.hasProcess && t.status == Unknown
  {
    CommandTask(guid, command, false, Unknown, "", "")
  }

  /** A service's answer; `stream` names the output file whose bytes are
    * returned, None standing for a null Stream. */
  datatype CommandTaskResponse = CommandTaskResponse(status: CommandStatus, stream: Option<string>)

  /** The reasons a CommandException is thrown. */
  datatype CommandError =
    | NoTask(guid: string)
    | CommandRejected
}
