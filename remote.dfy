/** What stands in for the network: a server is a map from a resource name to the lines of
    its text, and the ways a run can fail once fetching is abstracted away. */
module Remote {
  import opened Wrappers

  /** The one message every fetch failure is reported with. */
  const ConnectionMessage := "There was a problem with connection to NBP server"

  /** Why a run stops.
      - ConnectionProblem: a resource could not be fetched (IOException or
        MalformedURLException), reported as ConnectionMessage.
      - UnparsableFileDate: an index line has the data-file name shape but its `yyMMdd`
        part is not a date (a DateTimeParseException).
      - MalformedEntry: the lines after a currency marker are missing or do not hold the tag
        that is looked for (NoSuchElementException or StringIndexOutOfBoundsException), or
        a line holding the currency tag's name has no value that can be cut out of it, so
        the code cannot be compared with the currency (StringIndexOutOfBoundsException). */
  datatype Fault = ConnectionProblem | UnparsableFileDate | MalformedEntry

  /** The resources of one server, by name, each as its lines of text; a name that is not a
      key cannot be fetched. */
  type Server = map<string, seq<string>>

  /** The results a loop has collected, and the fault that stopped it, if any. */
  datatype Partial<T> = Partial(items: seq<T>, fault: Option<Fault>)

  /** `done` collected first, then what the rest of the loop yields. */
  function Join<T>(done: seq<T>, rest: Partial<T>): Partial<T> {
    Partial(done + rest.items, rest.fault)
  }

  lemma JoinTwice<T>(a: seq<T>, b: seq<T>, rest: Partial<T>)
    ensures Join(a, Join(b, rest)) == Join(a + b, rest)
  {
    assert a + (b + rest.items) == (a + b) + rest.items;
  }
}
