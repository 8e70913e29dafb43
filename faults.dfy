/** The exceptions that end a load, and the two ways a run can end. */
module Faults {

  datatype Fault =
    | KeyError(key: string)          // a key missing from the parsed catalog document
    | MissingYear(year: int)         // no `locations` entry for str(year): a KeyError of the config
    | FileNotFound(filename: string) // empty file name, or no document readable under that name
    | UnboundDocument                // legacy script: an empty file name leaves the document unbound

  datatype Outcome = Finished | Failed(fault: Fault)
}
