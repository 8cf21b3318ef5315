# Docker MCP container lister: a Dafny model of the report formatter

The Docker MCP server offers one tool, `list_containers`. It returns the
running containers of the local Docker daemon as a single text report. This
project models the function that builds that report, `list_running_containers`,
and its helper `_format_ports`, both in `src/containers.py`. The daemon query
(`docker.from_env()` and `client.containers.list()`) is not modelled. Its
outcome is an input: either the list of running containers, each with the
fields the report reads, or the `Exception` the `try` block raised.

- `pystr.dfy` (module `PyStr`) holds the Python built-ins the formatter relies
  on:
  - `str.isspace` over Python's full Unicode whitespace set;
  - `str.strip()` with no argument;
  - `sep.join(parts)`;
  - `str(n)` for a count.

  `strip()`, `join` and `str(n)` are each proved against a specification that
  does not depend on how they are computed. For example, `StripUnique` shows
  that any slice with whitespace around it and non-whitespace at both ends is
  the result of `strip()`. `isspace` is given directly as Python's list of
  whitespace code points.
- `containers.dfy` (module `Containers`) holds the formatter:
  - `FormatPorts` is `_format_ports`. Its two nested loops build the
    fragment list `port_mappings`, as the source does. It is proved equal to
    `FormatPortsSpec`, the join of `AllFragments`.
  - `RenderContainers` is the success path of `list_running_containers`. It
    appends the six lines of each container's block in turn, then strips the
    report. It is proved equal to `Listing`.
  - `ListRunningContainers` adds the two exception handlers. It is proved
    equal to `ListingOutcome`.

  Lemmas then establish the following about those specification functions:
  - fragments come in mapping and binding order, and each is found where
    expected;
  - a non-empty mapping never renders as "None";
  - the final `strip()` only trims the end of the last Ports line;
  - the header's count reads back as the number of containers;
  - error strings and reports can always be told apart, and the error kind
    and message can be read back.

A dict is modelled as a sequence of key/value pairs in insertion order. A
binding's `HostIp` and `HostPort` keys are `Option<string>`, because
`dict.get(key, default)` uses the default only when the key is absent. A
present but empty value is kept as it is. The source only tests
`container.ports` and a port's host bindings for truth, so `None` and an
empty collection are both an empty sequence here.

`result.strip()` removes whitespace from both ends of the report, and the
model follows the code. The report always starts with "Found", so only the
trailing end can change anything. `ListingShape` proves that it never
reaches past the "  Ports:" of the last block. `PortsTailTrimmed` proves that
after that only the Ports text's own trailing whitespace and the final
newlines are removed. `ListingEnds` combines the two.

The final `else "None"` of `_format_ports` (`src/containers.py:86`) can
never be taken. The code reaches that line only for a non-empty mapping, and
every port adds at least one fragment (`AllFragmentsCount`). So
`FormatPortsSpec` states outright that a non-empty mapping gives the join, and
`FormatPortsMarked` proves that such a join is never "None".

## Model

| member | source | states |
|---|---|---|
| Containers.FormatPorts | src/containers.py:62-86 | The nested loops over ports and bindings return exactly `FormatPortsSpec(ports)`: "None" for an empty mapping, otherwise every fragment in mapping order joined by ", ". |
| Containers.FormatPortsSpec | src/containers.py:72-86 | The result is "None" for the empty mapping. For any other mapping it is the ", "-join of all fragments, so the final `else "None"` never decides the result. That such a join is never "None" is `FormatPortsMarked`. |
| Containers.BindingFragments | src/containers.py:79-82 | A port's bindings give exactly one fragment each. |
| Containers.BindingFragmentsAt | src/containers.py:79-82 | The j-th fragment of a port is `ip:hostport -> port`, built from its j-th binding. |
| Containers.PortFragments | src/containers.py:78-84 | A port adds max(1, number of bindings) fragments. The text of each fragment is stated by `PortFragmentsInPlace`. |
| Containers.AllFragments | src/containers.py:77-84 | There are at least as many fragments as ports. |
| Containers.AllFragmentsCount | src/containers.py:75-84 | The number of fragments is the sum over the ports of max(1, number of bindings). |
| Containers.AllFragmentsSplit | src/containers.py:77-84 | The fragments of a concatenated mapping are the two parts' fragments in order, so mapping order is kept. |
| Containers.AllFragmentsFront | src/containers.py:77-84 | The first port of a mapping contributes the first fragments, followed by those of the remaining ports. |
| Containers.AllFragmentsCut | src/containers.py:77-84 | Cutting a mapping before port i cuts its fragments at the same place. |
| Containers.AllFragmentsFrom | src/containers.py:77-84 | The ports from port i on begin with port i's fragments, followed by those of the ports after it. |
| Containers.AllFragmentsAround | src/containers.py:77-84 | The fragments of a mapping are those of the ports before port i, then port i's own, then those of the ports after it. |
| Containers.PortFragmentsInPlace | src/containers.py:77-84 | Port i's fragments come right after those of the ports before it. An unbound port gives "<port> (not bound)". Otherwise binding j gives `BindingFragment(port, binding j)` at offset j. |
| Containers.PortOfFragment | src/containers.py:77-84 | Every fragment comes from one port and, for a bound port, one of its bindings, at the position `PortFragmentsInPlace` gives. |
| Containers.FragmentsMarked | src/containers.py:82-84 | Every fragment contains a ':' (a binding) or a ')' (an unbound port). |
| Containers.FormatPortsMarked | src/containers.py:72-86 | For a non-empty mapping the text contains ':' or ')', so it is never "None" or "No exposed ports". |
| Containers.BindingDefaults | src/containers.py:80-82 | Each key is defaulted on its own. An absent `HostIp` reads "0.0.0.0" whatever `HostPort` holds, and an absent `HostPort` reads "?" whatever `HostIp` holds. When both keys are present, both values are used as they are, even empty ones. |
| Containers.BlockInPlace | src/containers.py:32-49 | Container k's block sits between the blocks of the containers before it and those after it. It shows, in order, the name, the short id, the image (the first tag when there are tags, otherwise the image's short id), the status and the Ports text. |
| Containers.BlocksAround | src/containers.py:32-49 | The blocks of a list are those of the containers before container k, then its own, then those of the containers after it. |
| Containers.PortsFieldCases | src/containers.py:41 | The Ports text is "No exposed ports" exactly when the mapping is empty, otherwise `_format_ports` of the mapping. |
| Containers.BlockAtPorts | src/containers.py:44-49 | A block is its first four lines and "  Ports:", then " ", the Ports text and two newlines. |
| Containers.AppendBlock | src/containers.py:44-49 | The six appends for container i extend the header-plus-first-i-blocks report to the header plus the first i+1 blocks. |
| Containers.BlocksSplit | src/containers.py:32-49 | The blocks of a concatenated list are the blocks of each part in order, so the report keeps the daemon's order. |
| Containers.RenderContainers | src/containers.py:26-51 | The method returns `Listing(containers)`. That is "No running containers found." for an empty list. Otherwise it is the stripped header followed by each container's block in input order. |
| Containers.ListRunningContainers | src/containers.py:19-59 | The method returns the report on success. A `DockerException` gives the "Unable to connect to Docker daemon" message and any other `Exception` gives the "unexpected error" message, each followed by the exception text. |
| Containers.ListingShape | src/containers.py:51 | The stripped report is the header, every block but the last, and the last block up to "  Ports:", followed by " " + Ports text + "\n\n" with its trailing whitespace removed. Nothing before that is removed. |
| Containers.PortsTailTrimmed | src/containers.py:41-51 | Removing the trailing whitespace of " " + Ports text + "\n\n" leaves " " followed by the Ports text without its own trailing whitespace, and what is left of the Ports text is never empty. |
| Containers.ListingEnds | src/containers.py:44-51 | A non-empty report ends with the last block's "  Ports:", a space and that block's Ports text less its own trailing whitespace. Everything before it is the header and the earlier blocks, untouched. |
| Containers.ReportUnstripped | src/containers.py:30-49 | Before `strip()` the report is the header, every block but the last, and the last block up to "  Ports:", followed by " ", its Ports text and two newlines. |
| Containers.PortsFieldNotBlank | src/containers.py:41 | The Ports text is never all whitespace. |
| Containers.ListingHeader | src/containers.py:30 | A non-empty report starts with "Found N running container(s):" and a blank line, and N reads back as the number of containers. |
| Containers.ListingWhole | src/containers.py:30-51 | When the last Ports text does not end in whitespace, the report plus "\n\n" is exactly the header followed by every block. |
| Containers.ErrorsRecoverable | src/containers.py:53-59 | From any returned string, the error kind and message can be read back exactly. A successful report never reads as an error. |
| Containers.SingleContainerExample | src/containers.py:30-51 | One nginx container with 80/tcp published on 0.0.0.0:8080 gives the expected report: the header, a blank line and the five lines of its block, ending in "  Ports: 0.0.0.0:8080 -> 80/tcp". |
| PyStr.TrimStartSpec | src/containers.py:51 | Removing leading whitespace leaves a suffix of the input. What it drops is all whitespace, and what it keeps does not start with whitespace. |
| PyStr.TrimEndSpec | src/containers.py:51 | Removing trailing whitespace leaves a prefix of the input. What it drops is all whitespace, and what it keeps does not end with whitespace. |
| PyStr.StripSpec | src/containers.py:51 | `strip()` never lengthens a string. Neither end of its result is whitespace, and the result is empty exactly when the input is all whitespace. |
| PyStr.StripUnique | src/containers.py:51 | Any slice that has only whitespace around it and non-whitespace at both ends is the result of `strip()`. |
| PyStr.TrimEndPadded | src/containers.py:51 | Trailing whitespace after a string that is not all whitespace is removed together with that string's own trailing whitespace, and nothing before it is removed. |
| PyStr.TrimEndAfter | src/containers.py:51 | Removing trailing whitespace never goes past a non-whitespace character. |
| PyStr.JoinSpec | src/containers.py:86 | Joining nothing gives "". A join starts with the first part, and its length is the parts' total length plus one separator between each two neighbours. |
| PyStr.JoinSnoc | src/containers.py:86 | Joining one more part appends the separator and that part. |
| PyStr.DigitChar | src/containers.py:30 | The digit character for d is in '0'..'9' and has the value d. |
| PyStr.DecimalSpec | src/containers.py:30 | `str(n)` is one or more decimal digits, with no leading zero unless n is 0. |
| PyStr.DecimalRoundTrip | src/containers.py:30 | Reading `str(n)` back as a decimal number gives n. |

## Left out

- `server.py`: the FastMCP server, its tool registration and the stdio transport. This is framework plumbing around `list_running_containers`.
- `docker.from_env()` and `client.containers.list()` (`src/containers.py:21-24`): the daemon connection and query are I/O. Their outcome is the input to `ListRunningContainers`.
- Lazy per-container lookups such as `container.image` can raise inside the loop. When what they raise is an `Exception`, the exception input covers it: the whole call returns the matching error string.
- Exceptions outside `Exception` (`KeyboardInterrupt`, `SystemExit`, `GeneratorExit`): the handler at `src/containers.py:57` does not catch them, so they leave `list_running_containers` without a return value. The model has no such outcome; its `Err` input stands only for a `DockerException` or another `Exception`.
- `logger.error` calls: logging has no effect on the returned string.
- Python's raising and catching of exceptions: only the mapping from exception kind to returned string is modelled, as the two-case `Err` input.
- Field values other than strings, and their conversion by `str()` inside f-strings: every field is already text here, as `str(e)` is for an exception.
