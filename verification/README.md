# swm-core: entity decoders, the job porter, and the code-generation helpers

This project models three sequential pieces of the Sky Port workload manager (swm-core) in Dafny and proves properties of them.

1. **Entity decoders** (`c_src/lib/wm_account.cpp`, `wm_hook.cpp`, `wm_queue.cpp`, `wm_grid.cpp`, `wm_group.cpp`, `wm_metric.cpp`). Each entity constructor reads one Erlang tuple from an `ei` buffer, field by field, in a fixed order. It stops at the first field that fails. Fields read before the failure keep their decoded values; the rest keep their defaults. Each file also has a list decoder.
   - The buffer is a sequence of abstract External Term Format tokens (`terms.dfy`): tuple heads, `LIST_EXT` heads, `NIL_EXT`, atoms, strings, integers and floats.
   - The primitive `ei` decoders (`primitives.dfy`) are functions from a position to an optional value and next position.
   - The field-by-field decoding shared by every constructor is written once, over a schema of field kinds (`fields.dfy`). Each entity module gives its schema, its record and the conversion between the two.
   - The two list-decoding conventions are in `lists.dfy`:
     - the shared cursor of `ei_buffer_to_account` / `ei_buffer_to_hook`;
     - the per-element decoding of `ei_buffer_to_queue` / `_grid` / `_group` / `_metric`.
2. **The porter** (`c_src/porter/porter.cpp`). This process runs one job in a container.
   - The child (`porter.dfy`):
     - looks the job's user up, retrying a bounded number of times;
     - saves the job script;
     - drops privileges;
     - sets up the environment, working directory and output streams;
     - execs the script.
   - The parent (`supervisor.dfy`) polls the child and writes a six-field status tuple on every poll.
   - Every system call is an event in a trace. Its result comes from an oracle parameter (`sys`, `answers`, the `Poll` sequence). The model says which results end the process and with which exit code.
3. **Code-generation helpers** (`scripts/autogen_helpers.py`, `autogen.dfy`):
   - the type tables `types`, `type_suffix` and `printer`;
   - the name builders `struct_param_type`, `get_tuple_type` and `c_struct`, with Python's `strip`, `title` and `replace` written out.

The model follows the code, not the documented intent, where the two part. Where the code cannot be followed, the model takes the evident intent and says so in a doc comment:

- **A stopped child** (`WIFSTOPPED`, porter.cpp:328-341) is reported as finished, and the parent leaves its polling loop, although a stopped process has not ended. The model follows the code.
- **A failed `execve`** falls through to `return EXIT_SUCCESS` (porter.cpp:276, 347). The child's trace then ends with the exec and the exit code EXIT_SUCCESS. A successful exec also ends the trace, with no exit code, since the script replaces the child.
- **The queue, grid, group and metric decoders do not compile as written.** In the list decoders, wm_queue.cpp:190 lacks a `;`, :192 uses an undeclared `index`, :202 takes `&pos` of a `const int`, and :216 builds a queue from an `ei_term`. The constructors pass an `int` where `ei_print_term` expects an `int*` (for example wm_metric.cpp:32 and wm_queue.cpp:32); in these the index is local, so the call has no effect the model needs. The list decoders are modelled by their evident intent:
  - each element is one complete term, decoded from offset 0 as its own buffer;
  - the caller's `pos` is passed by value and never advanced;
  - the first element that is not a complete term ends the list with `-1`;
  - elements appended before that are kept.
- **The shared-cursor list decoders switch on `ei_get_type`'s return code** rather than on the type it reports (wm_account.cpp:154, wm_hook.cpp:155). The corrected decoder switches on the type. The code as written is also modelled, and the difference is recorded under "## Findings". As in the code, an element that is not a tuple does not advance the cursor.
- **An empty Erlang list is `NIL_EXT`.** The list decoders accept only `LIST_EXT` (wm_account.cpp:137), so they return `-1` for it. The "count 0" branch is reached only by a `LIST_EXT` head that declares zero elements. `Nil` is a separate probe kind so that this is visible.
- **The declared tuple arity is read but never compared** with the number of fields. The model does not check it either.

## Model

| member | source | states |
|---|---|---|
| Terms.Tag | c_src/lib/wm_account.cpp:137 | The four term tags the decoders compare against are distinct: a tag identifies its kind (both directions for each kind). |
| Terms.ProbeTerm | c_src/lib/wm_account.cpp:131-135 | The type probe at the start of an encoded term, whatever surrounds it, reports that term's own kind (leaf token, small or large tuple, list). |
| Terms.ReturnCodeIsNoTag | c_src/lib/wm_account.cpp:154 | `ei_get_type`'s return code never equals any tag byte, so a switch on it cannot take a tag case; it is 0 exactly when a term starts at the position. |
| Terms.Flatten | c_src/lib/wm_queue.cpp:212 | An encoded term occupies at least one token. |
| Terms.SkipTerm | c_src/lib/wm_queue.cpp:212 | Skipping one complete term always moves strictly forward and stays inside the buffer. The cited `ei_decode_ei_term` reads only a compound term's header; skipping the whole term is the model's reading of the intent that each element is taken whole. |
| Terms.SkipFlatten | c_src/lib/wm_queue.cpp:212 | Skipping is the inverse of encoding: from the start of an encoded well-formed term, with anything around it, the skip ends exactly after that term. |
| Terms.SkipFlattenAll | c_src/lib/wm_queue.cpp:210-217 | Skipping n terms over n encoded terms ends exactly after the last of them. |
| Terms.PastEncodedTerm | c_src/lib/wm_account.cpp:29 | The diagnostic print after a failed field moves the shared cursor exactly past the encoded well-formed term at it, whatever surrounds that term. |
| Primitives.DecodeTupleHeaderTerm | c_src/lib/wm_account.cpp:22 | On an encoded well-formed term, the tuple header decodes exactly when the term is a tuple; it yields the element count and moves past the header, and that many complete terms then end the tuple. |
| Primitives.DecodeListHeaderTerm | c_src/lib/wm_account.cpp:142 | On an encoded well-formed term, the list header decodes exactly for a list (its element count, one token consumed, then the elements and the tail end the term) or for `NIL_EXT` (count 0, the whole term consumed). |
| Primitives.DecodeAtomTerm | c_src/lib/wm_account.cpp:33 | An atom decoder applied to an encoded term succeeds exactly for an atom. It yields a given name exactly when the term is that atom, and then moves past it. |
| Primitives.DecodeStrTerm | c_src/lib/wm_account.cpp:27 | A string decoder applied to an encoded term succeeds exactly for a string. It yields a given text exactly when the term is that string, and then moves past it. |
| Primitives.DecodeU64Term | c_src/lib/wm_account.cpp:63 | An unsigned decoder applied to an encoded term succeeds exactly for an integer in [0, 2^64); negative and wider integers are rejected. It yields a given value exactly when the term is that integer. |
| Primitives.DecodeI64Term | c_src/lib/wm_group.cpp:48 | A signed decoder applied to an encoded term succeeds exactly for an integer in [-2^63, 2^63). It yields a given value exactly when the term is that integer. |
| Primitives.DecodeDoubleTerm | c_src/lib/wm_metric.cpp:42 | A double decoder applied to an encoded term succeeds exactly for a float. It yields a given bit pattern exactly when the term is that float. |
| Primitives.DecodeStrList | c_src/lib/wm_account.cpp:45 | A string list decodes only at a list head or `NIL_EXT`; `NIL_EXT` gives the empty list. |
| Primitives.DecodeStrListContents | c_src/lib/wm_account.cpp:45 | Each decoded string is the text of the string token at the matching position after the head. |
| Primitives.DecodeEncodeStrList | c_src/lib/wm_account.cpp:45 | Every encoded string list, empty or not, decodes back to itself and ends right after its encoding. |
| Fields.DecodeField | c_src/lib/wm_grid.cpp:31-94 | A decoded field always has the kind the schema asks for, whether a primitive or an external decoder read it. |
| Fields.DecodeEncodeLeaf | c_src/lib/wm_account.cpp:27-66 | Each scalar field (string, atom, unsigned, signed, double) written by the peer reads back as the same value, with the cursor just past it, whatever surrounds it. |
| Fields.DecodeFields | c_src/lib/wm_account.cpp:27-68 | The decoded values follow the schema in order; when fewer than all were decoded, the next field fails to decode at the cursor where decoding stopped. |
| Fields.DecodeFieldsPrefix | c_src/lib/wm_account.cpp:27-68 | Fields are read strictly in order: decoding a schema prefix gives a prefix of the full decoding. |
| Fields.DecodeEncodeFields | c_src/lib/wm_grid.cpp:31-96 | Encoded values matching the schema decode back to themselves, ending right after their encoding, when each external decoder inverts its encoder. |
| Fields.DecodeFieldsStopsAfter | c_src/lib/wm_account.cpp:27-68 | When the first k fields decode and field k does not, decoding the whole schema gives the same k values and the same cursor, at field k, as decoding the first k fields alone. |
| Fields.MismatchFails | c_src/lib/wm_account.cpp:27-66 | A string, atom, string-list, integer or float field given a complete term of another kind does not decode, wherever that term sits. |
| Fields.DecodeRecord | c_src/lib/wm_account.cpp:21-25 | A record decodes exactly when a tuple header is at the cursor; the declared arity is not compared with the schema. |
| Fields.DecodeRecordEncoded | c_src/lib/wm_account.cpp:16-68 | A record encoded with either tuple header decodes back to all its values. |
| Lists.Scrutinee | c_src/lib/wm_account.cpp:154-158 | Switching on the probed kind matches a tuple case exactly when a tuple is there; switching on the return code never matches a tuple case. |
| Lists.SharedListWith | c_src/lib/wm_account.cpp:128-165 | The list decoder returns 0 exactly when a `LIST_EXT` is probed; otherwise -1 with the array and cursor untouched. `NIL_EXT` gives -1. A zero count gives 0 with the array unchanged. Otherwise at most count elements are appended after the prior ones. |
| Lists.SharedCursorList | c_src/lib/wm_account.cpp:128-165 | The corrected shared-cursor decoder: 0 exactly on a list, -1 with nothing changed otherwise; the array grows by at most the declared count and keeps its prior elements. |
| Lists.SharedCursorListAsWritten | c_src/lib/wm_account.cpp:128-165 | The decoder as written has the same status and error behaviour as the corrected one. |
| Lists.AsWrittenNeverAppends | c_src/lib/wm_account.cpp:154-161 | As written, the element loop never appends and never moves the cursor. |
| Lists.AsWrittenKeepsArray | c_src/lib/wm_account.cpp:150-164 | As written, the list decoder leaves the caller's array exactly as it was. |
| Lists.SkippedElementStopsList | c_src/lib/wm_account.cpp:159-161 | A non-tuple element is skipped without moving the cursor, so every later element is skipped too. |
| Lists.SharedElementsConcat | c_src/lib/wm_account.cpp:150-164 | Consecutive encoded elements, each of which reads back, are all appended in wire order, and the cursor ends after the last. |
| Lists.SharedCursorListEncoded | c_src/lib/wm_account.cpp:128-165 | A non-empty encoded list decodes to status 0 with exactly its elements appended in order, leaving the cursor on the list's `NIL_EXT` tail. |
| Lists.SharedCursorListRejectsEmpty | c_src/lib/wm_account.cpp:137-140 | An empty Erlang list (`NIL_EXT`) is rejected with -1 and changes nothing. |
| Lists.PerElements | c_src/lib/wm_queue.cpp:210-217 | The element loop reports 0 exactly when all declared elements were decoded, and never decodes more. |
| Lists.PerElementList | c_src/lib/wm_queue.cpp:189-219 | The per-element decoder never moves the caller's position. A non-list (including `NIL_EXT`) gives -1 with the array unchanged. On a list, either every element is appended (0) or an element failed (-1). Prior elements are always kept. |
| Lists.PerElementsFlatten | c_src/lib/wm_queue.cpp:210-217 | Well-formed encoded elements are each decoded on their own, in order, with status 0. |
| Lists.PerElementsTruncated | c_src/lib/wm_queue.cpp:212-215 | When the buffer holds fewer complete terms than declared, the loop returns -1 after appending the ones it could read. |
| Lists.PerElementListTruncated | c_src/lib/wm_queue.cpp:209-218 | A list head declaring more elements than present gives -1, with the readable elements appended after the prior ones. |
| Lists.PerElementListEncoded | c_src/lib/wm_queue.cpp:189-219 | A non-empty encoded list decodes to 0, with each element decoded from its own term and appended in order. |
| Lists.PerElementListRejectsEmpty | c_src/lib/wm_queue.cpp:197-200 | An empty Erlang list (`NIL_EXT`) is rejected with -1 and changes nothing. |
| Account.ToFields | c_src/lib/wm_account.cpp:27-67 | An account's fields fit the schema id, name, price_list, users, admins, comment, revision with their kinds. |
| Account.FromToFields | c_src/lib/wm_account.cpp:27-67 | Rebuilding an account from its field values gives it back. |
| Account.ToFromFields | c_src/lib/wm_account.cpp:27-68 | An account built from the first k decoded fields holds those values, and the defaults for every later field. |
| Account.Get | c_src/lib/wm_account.cpp:100-126 | Each getter returns a value of its field's kind. |
| Account.Set | c_src/lib/wm_account.cpp:72-98 | A setter makes its getter return the new value and leaves every other field unchanged. |
| Account.Decode | c_src/lib/wm_account.cpp:16-25 | A null buffer, or no tuple at the cursor, leaves the default account and the cursor unchanged. |
| Account.DecodeCursor | c_src/lib/wm_account.cpp:29-66 | From a tuple, the cursor ends after the last field when every field decodes, and otherwise where `ei_print_term` leaves it, starting from the field that failed. |
| Account.FailedFieldSkipsTerm | c_src/lib/wm_account.cpp:27-66 | When the field after the decoded values is sent as a complete term of the wrong kind, the account keeps those values with defaults after them, and the cursor ends just past the offending term. |
| Account.DecodePrefix | c_src/lib/wm_account.cpp:27-68 | From a tuple, the account holds the fields decoded before the first failure and defaults after it, and the field where decoding stopped is one that does not decode there. |
| Account.DecodeEncode | c_src/lib/wm_account.cpp:16-68 | An encoded account, at any position in the buffer, decodes back to itself and moves the cursor exactly past its encoding. |
| Account.ElementReadsBack | c_src/lib/wm_account.cpp:157 | Building an account at the shared cursor reads back any encoded account and moves past it. |
| Account.DecodeList | c_src/lib/wm_account.cpp:128-165 | `ei_buffer_to_account`: 0 exactly on a list, -1 with nothing changed otherwise; the array grows by at most the declared count, keeping its prior elements. |
| Account.DecodeListEncoded | c_src/lib/wm_account.cpp:128-165 | A non-empty encoded list of accounts is appended in order and returns 0. |
| Account.DecodeListRejectsEmpty | c_src/lib/wm_account.cpp:137-140 | An empty Erlang list returns -1 with the array and cursor untouched. |
| Account.DecodeListAsWritten | c_src/lib/wm_account.cpp:128-165 | As written, the status matches the corrected decoder, but the array is never changed. |
| Account.AsWrittenDropsAccounts | c_src/lib/wm_account.cpp:154 | As written, a non-empty list of accounts returns 0 but appends none of them. |
| Hook.ToFields | c_src/lib/wm_hook.cpp:28-68 | A hook's fields fit the schema id, name, event, state, executable, comment, revision. |
| Hook.FromToFields | c_src/lib/wm_hook.cpp:28-68 | Rebuilding a hook from its field values gives it back. |
| Hook.ToFromFields | c_src/lib/wm_hook.cpp:28-69 | A hook built from the first k decoded fields holds those values and the defaults for the rest. |
| Hook.Get | c_src/lib/wm_hook.cpp:101-127 | Each getter returns a value of its field's kind. |
| Hook.Set | c_src/lib/wm_hook.cpp:73-99 | A setter makes its getter return the new value and leaves every other field unchanged. |
| Hook.Decode | c_src/lib/wm_hook.cpp:17-26 | A null buffer, or no tuple at the cursor, leaves the default hook and the cursor unchanged. |
| Hook.DecodeCursor | c_src/lib/wm_hook.cpp:28-68 | From a tuple, the cursor ends after the last field when every field decodes, and otherwise where `ei_print_term` leaves it, starting from the field that failed. |
| Hook.FailedFieldSkipsTerm | c_src/lib/wm_hook.cpp:28-68 | When the field after the decoded values is sent as a complete term of the wrong kind, the hook keeps those values with defaults after them, and the cursor ends just past the offending term. |
| Hook.DecodePrefix | c_src/lib/wm_hook.cpp:28-69 | From a tuple, the hook holds the fields decoded before the first failure and defaults after it. |
| Hook.InvertsSchema | c_src/lib/wm_hook.cpp:52 | When the external executable decoder inverts its encoder, every hook field decoder inverts its encoder. |
| Hook.DecodeEncode | c_src/lib/wm_hook.cpp:17-69 | An encoded hook decodes back to itself and moves the cursor exactly past it, given an executable decoder that inverts its encoder. |
| Hook.ElementReadsBack | c_src/lib/wm_hook.cpp:158 | Building a hook at the shared cursor reads back any encoded hook. |
| Hook.DecodeList | c_src/lib/wm_hook.cpp:129-166 | `ei_buffer_to_hook`: 0 exactly on a list, -1 with nothing changed otherwise; the array grows by at most the declared count. |
| Hook.DecodeListEncoded | c_src/lib/wm_hook.cpp:129-166 | A non-empty encoded list of hooks is appended in order and returns 0. |
| Hook.DecodeListRejectsEmpty | c_src/lib/wm_hook.cpp:137-140 | An empty Erlang list returns -1 with nothing changed. |
| Hook.DecodeListAsWritten | c_src/lib/wm_hook.cpp:129-166 | As written, the status matches the corrected decoder, but the array is never changed. |
| Hook.AsWrittenDropsHooks | c_src/lib/wm_hook.cpp:155 | As written, a non-empty list of hooks returns 0 but appends none of them. |
| Queue.ToFields | c_src/lib/wm_queue.cpp:30-94 | A queue's fields fit the schema id, name, state, jobs, nodes, users, admins, hooks, priority, comment, revision. |
| Queue.FromToFields | c_src/lib/wm_queue.cpp:30-94 | Rebuilding a queue from its field values gives it back. |
| Queue.ToFromFields | c_src/lib/wm_queue.cpp:30-95 | A queue built from the first k decoded fields holds those values and the defaults for the rest. |
| Queue.Get | c_src/lib/wm_queue.cpp:144-186 | Each getter returns a value of its field's kind. |
| Queue.Set | c_src/lib/wm_queue.cpp:100-142 | A setter makes its getter return the new value and leaves every other field unchanged. |
| Queue.Decode | c_src/lib/wm_queue.cpp:16-28 | A null buffer, or no tuple at offset 0, leaves the default queue. |
| Queue.DecodePrefix | c_src/lib/wm_queue.cpp:30-95 | From a tuple at offset 0, the queue holds the fields decoded before the first failure and defaults after it. |
| Queue.DecodeEncode | c_src/lib/wm_queue.cpp:16-95 | An encoded queue at offset 0 decodes back to itself. |
| Queue.ElementOfTerm | c_src/lib/wm_queue.cpp:216 | A queue's term is well formed and, decoded on its own, gives the queue back. |
| Queue.DecodeList | c_src/lib/wm_queue.cpp:189-219 | `ei_buffer_to_queue`: the position never moves. A non-list gives -1 with the array unchanged. On a list, every element is appended (0) or one failed (-1). Prior elements are kept. |
| Queue.DecodeListEncoded | c_src/lib/wm_queue.cpp:189-219 | A non-empty encoded list of queues is appended in order and returns 0. |
| Queue.DecodeListTruncated | c_src/lib/wm_queue.cpp:209-218 | A list declaring more queues than present returns -1, keeping the queues it could read. |
| Queue.DecodeListRejectsEmpty | c_src/lib/wm_queue.cpp:197-200 | An empty Erlang list returns -1 with nothing changed. |
| Grid.ToFields | c_src/lib/wm_grid.cpp:31-94 | A grid's fields fit the schema id, name, state, manager, clusters, hooks, scheduler, resources, properties, comment, revision. |
| Grid.FromToFields | c_src/lib/wm_grid.cpp:31-94 | Rebuilding a grid from its field values gives it back. |
| Grid.ToFromFields | c_src/lib/wm_grid.cpp:31-96 | A grid built from the first k decoded fields holds those values and the defaults for the rest. |
| Grid.Get | c_src/lib/wm_grid.cpp:145-187 | Each getter returns a value of its field's kind. |
| Grid.Set | c_src/lib/wm_grid.cpp:101-143 | A setter makes its getter return the new value and leaves every other field unchanged. |
| Grid.Decode | c_src/lib/wm_grid.cpp:17-29 | A null buffer, or no tuple at offset 0, leaves the default grid. |
| Grid.DecodePrefix | c_src/lib/wm_grid.cpp:31-96 | From a tuple at offset 0, the grid holds the fields decoded before the first failure and defaults after it. |
| Grid.InvertsSchema | c_src/lib/wm_grid.cpp:73-83 | When the external resource and property decoders invert their encoders, every grid field decoder does. |
| Grid.DecodeEncode | c_src/lib/wm_grid.cpp:17-96 | An encoded grid decodes back to itself, given inverting external decoders. |
| Grid.ElementOfTerm | c_src/lib/wm_grid.cpp:216 | A grid's term is well formed and, decoded on its own, gives the grid back. |
| Grid.DecodeList | c_src/lib/wm_grid.cpp:190-220 | `ei_buffer_to_grid`: the position never moves. A non-list gives -1 with nothing changed. On a list, all elements are appended (0) or one failed (-1). |
| Grid.DecodeListEncoded | c_src/lib/wm_grid.cpp:190-220 | A non-empty encoded list of grids is appended in order and returns 0. |
| Grid.DecodeListTruncated | c_src/lib/wm_grid.cpp:210-219 | A list declaring more grids than present returns -1, keeping the grids it could read. |
| Grid.DecodeListRejectsEmpty | c_src/lib/wm_grid.cpp:198-201 | An empty Erlang list returns -1 with nothing changed. |
| Group.ToFields | c_src/lib/wm_group.cpp:30-64 | A group's fields fit the schema id, name, acl, priority, comment, revision. |
| Group.FromToFields | c_src/lib/wm_group.cpp:30-64 | Rebuilding a group from its field values gives it back. |
| Group.ToFromFields | c_src/lib/wm_group.cpp:30-65 | A group built from the first k decoded fields holds those values and the defaults for the rest. |
| Group.Get | c_src/lib/wm_group.cpp:94-116 | Each getter returns a value of its field's kind. |
| Group.Set | c_src/lib/wm_group.cpp:70-92 | A setter makes its getter return the new value and leaves every other field unchanged. |
| Group.Decode | c_src/lib/wm_group.cpp:16-28 | A null buffer, or no tuple at offset 0, leaves the default group. |
| Group.DecodePrefix | c_src/lib/wm_group.cpp:30-65 | From a tuple at offset 0, the group holds the fields decoded before the first failure and defaults after it. |
| Group.DecodeEncode | c_src/lib/wm_group.cpp:16-65 | An encoded group decodes back to itself. |
| Group.ElementOfTerm | c_src/lib/wm_group.cpp:146 | A group's term is well formed and, decoded on its own, gives the group back. |
| Group.DecodeList | c_src/lib/wm_group.cpp:119-149 | `ei_buffer_to_group`: the position never moves. A non-list gives -1 with nothing changed. On a list, all elements are appended (0) or one failed (-1). |
| Group.DecodeListEncoded | c_src/lib/wm_group.cpp:119-149 | A non-empty encoded list of groups is appended in order and returns 0. |
| Group.DecodeListTruncated | c_src/lib/wm_group.cpp:139-148 | A list declaring more groups than present returns -1, keeping the groups it could read. |
| Group.DecodeListRejectsEmpty | c_src/lib/wm_group.cpp:127-130 | An empty Erlang list returns -1 with nothing changed. |
| Metric.ToFields | c_src/lib/wm_metric.cpp:30-46 | A metric's fields fit the schema name, value_integer, value_float64; both values are present. |
| Metric.FromToFields | c_src/lib/wm_metric.cpp:30-46 | Rebuilding a metric from its field values gives it back. |
| Metric.ToFromFields | c_src/lib/wm_metric.cpp:30-47 | A metric built from the first k decoded fields holds those values and the defaults for the rest. |
| Metric.Get | c_src/lib/wm_metric.cpp:64-74 | Each getter returns a value of its field's kind. |
| Metric.Set | c_src/lib/wm_metric.cpp:52-62 | A setter makes its getter return the new value and leaves every other field unchanged. |
| Metric.Decode | c_src/lib/wm_metric.cpp:16-28 | A null buffer, or no tuple at offset 0, leaves the default metric. |
| Metric.DecodePrefix | c_src/lib/wm_metric.cpp:30-47 | From a tuple at offset 0, the metric holds the fields decoded before the first failure and defaults after it. |
| Metric.DecodeEncode | c_src/lib/wm_metric.cpp:16-47 | An encoded metric decodes back to itself, float bits included. |
| Metric.ElementOfTerm | c_src/lib/wm_metric.cpp:104 | A metric's term is well formed and, decoded on its own, gives the metric back. |
| Metric.DecodeList | c_src/lib/wm_metric.cpp:77-107 | `ei_buffer_to_metric`: the position never moves. A non-list gives -1 with nothing changed. On a list, all elements are appended (0) or one failed (-1). |
| Metric.DecodeListEncoded | c_src/lib/wm_metric.cpp:77-107 | A non-empty encoded list of metrics is appended in order and returns 0. |
| Metric.DecodeListTruncated | c_src/lib/wm_metric.cpp:97-106 | A list declaring more metrics than present returns -1, keeping the metrics it could read. |
| Metric.DecodeListRejectsEmpty | c_src/lib/wm_metric.cpp:85-88 | An empty Erlang list returns -1 with nothing changed. |
| Porter.ChildExitCodes | c_src/porter/porter.cpp:35-82 | The child's run stops at its first failing step, and the exit code depends on that step: EXIT_FAILURE for the script file, `chmod` or `chown`; the negative status itself for `setregid`/`setreuid`; EXIT_FILE_ERROR for `fopen`; EXIT_SYSTEM_ERROR for `dup2`; EXIT_SUCCESS for `execve`, after the whole plan. `setenv` and `chdir` never fail. |
| Porter.FailedExecExitsSuccess | c_src/porter/porter.cpp:268-276 | When every step before the exec succeeds and `execve` fails, the child has run its whole plan and ends with EXIT_SUCCESS, through the fall-through to `return EXIT_SUCCESS`. |
| Porter.Perform | c_src/porter/porter.cpp:258-276 | The child runs its plan in order and fails closed. The trace is a prefix of the plan. Every step but the last succeeded. It finishes without an exit code exactly when every step passed. Otherwise its exit code is the last step's verdict. |
| Porter.FindToken | c_src/porter/porter.cpp:91 | `find` returns the first occurrence of `%j`, and nothing exactly when there is none. |
| Porter.SubstituteFirst | c_src/porter/porter.cpp:87-94 | Only the first `%j` is replaced by the job id; every other character, later `%j` included, is kept. |
| Porter.SubstituteAbsent | c_src/porter/porter.cpp:91-94 | A path without `%j` is used unchanged. |
| Porter.SubstituteExample | c_src/porter/porter.cpp:87-96 | `/logs/%j.out` for job 42 becomes `/logs/42.out`. |
| Porter.ScriptPathInjective | c_src/porter/porter.cpp:187 | Different job ids get different script paths `/tmp/swm-<id>.sh`, so no job overwrites another's script. |
| Porter.SaveScriptFailsClosed | c_src/porter/porter.cpp:186-207 | If writing the script, `chmod` or `chown` fails, the child exits with EXIT_FAILURE right after that step; no later step runs. |
| Porter.GroupBeforeUser | c_src/porter/porter.cpp:35-47 | A failed `setregid` ends the child with its status before any `setreuid` is attempted, and only after the script was saved. |
| Porter.UserSwitchFails | c_src/porter/porter.cpp:35-47 | When the group changes but `setreuid` fails, the child ends with `setreuid`'s status right after it, having saved the script and changed the group. |
| Porter.ChownBeforeIdentitySwitch | c_src/porter/porter.cpp:203-263 | With uid and gid 5000 the script is handed to 5000:5000 while the porter is still privileged, then the group, then the user is switched. |
| Porter.JobEnvironment | c_src/porter/porter.cpp:141-153 | HOME, USER and SWM_JOB_ID are always set to the user's home, name and the job id. With a working directory, PATH and PWD both become `workdir:PATH`. Without one they are untouched. Every other variable is unchanged. |
| Porter.Workdir | c_src/porter/porter.cpp:49-56 | The child changes to the job's directory, or to the user's home when the job names none. |
| Porter.ChildChangesDirectory | c_src/porter/porter.cpp:49-56 | The child changes to a directory exactly when it is the job's directory, or the user's home when the job names none; it changes to no other directory. |
| Porter.EnvironmentOrdered | c_src/porter/porter.cpp:141-153 | Setting up the environment consists only of `setenv` steps. |
| Porter.SetIoOrdered | c_src/porter/porter.cpp:84-108 | Each stream is opened before it is duplicated, and stdout is handled before stderr. |
| Porter.StreamsUseSubstitutedPaths | c_src/porter/porter.cpp:84-108 | A stream is opened at its template with `%j` replaced exactly when its template is non-empty. |
| Porter.StreamRedirections | c_src/porter/porter.cpp:84-108 | Every `fopen` and `dup2` the child makes is for a stream whose template is non-empty, at that template with `%j` replaced. |
| Porter.EmptyTemplateNoRedirection | c_src/porter/porter.cpp:90-107 | A stream whose template is empty is neither opened nor duplicated onto anything. |
| Porter.ChildPlanOrdered | c_src/porter/porter.cpp:258-276 | The child's steps follow the fixed order: save script, set group, set user, set environment, chdir, redirect streams, exec. |
| Porter.ChildPlanStart | c_src/porter/porter.cpp:258-263 | The first five steps are write, `chmod` 0700, `chown` to the user, `setregid`, `setreuid`. |
| Porter.ChildPlanEnd | c_src/porter/porter.cpp:269-276 | The last step execs `/bin/sh -c <script path>`. |
| Porter.LookupUserBound | c_src/porter/porter.cpp:245-255 | The user lookup makes between 1 and 20 attempts and sleeps one second between attempts, never after the last. It returns the first entry found. It gives up only when all 20 attempts fail. |
| Porter.UserNeverFound | c_src/porter/porter.cpp:245-252 | A user who never appears costs exactly 20 lookups and 19 sleeps. |
| Porter.UserNotFoundExits | c_src/porter/porter.cpp:245-252 | In the child, a user the lookups never return ends the porter with EXIT_USER_NOT_FOUND after exactly 20 lookups and 19 one-second sleeps, and nothing else is done. |
| Porter.Main | c_src/porter/porter.cpp:222-283 | Unreadable input or a failed fork ends the porter with EXIT_FAILURE. Exactly the child side runs the job. The parent side supervises the child's pid. |
| Porter.ChildFailsClosed | c_src/porter/porter.cpp:245-276 | The child's trace is the lookup followed by a prefix of its plan in which every step but the last succeeded. It survives to the end only by exec'ing the script. |
| Porter.PerformAllPass | c_src/porter/porter.cpp:258-276 | A plan whose every step succeeds runs to the end without an exit code. |
| Porter.PerformStopsAt | c_src/porter/porter.cpp:186-276 | When step k is the first whose status ends the child, the trace is exactly the first k+1 steps, and the exit code is that step's verdict. |
| Supervisor.Snapshot | c_src/porter/porter.cpp:284-335 | Each poll result becomes one status record for the child's pid: running, error or finished. The comment is non-empty exactly for a `waitpid` error. An exit gives its code with signal 0. A termination or stop signal gives exitcode -1 with that signal. Otherwise both are -1. |
| Supervisor.Supervise | c_src/porter/porter.cpp:283-343 | One status per poll until the loop ends. Every poll before the last is a sent running status, and the status of poll i is that poll's snapshot. It never ends while every poll is running and sent, and it ends at the first poll that is not. |
| Supervisor.SleepsPerStatus | c_src/porter/porter.cpp:292-341 | The porter sleeps 5 seconds after each status it sends and at no other time; an unsent status ends it without sleeping. |
| Supervisor.ExitOfLastCheck | c_src/porter/porter.cpp:292-342 | The porter ends successfully exactly when the last poll saw the child end and its status was sent. Every other end is EXIT_FAILURE. |
| Supervisor.StatusesBeforeLastAreRunning | c_src/porter/porter.cpp:301-308 | Every status before the last one sent says running. |
| Supervisor.FinishedIsLast | c_src/porter/porter.cpp:309-341 | A finished status is sent exactly when the porter ends successfully, and then it is the last status. |
| Supervisor.WaitErrorEndsPorter | c_src/porter/porter.cpp:292-300 | A `waitpid` error sends one error status with comment `waitpid error`, sleeps, and ends with EXIT_FAILURE. |
| Supervisor.NormalExitScenario | c_src/porter/porter.cpp:312-319 | Running polls, then exit 0: that many running statuses (-1, -1), then one finished status with exitcode 0 and signal 0. |
| Supervisor.SignalScenario | c_src/porter/porter.cpp:320-327 | A child killed by signal 9 ends with a finished status carrying exitcode -1 and signal 9. |
| Supervisor.TerminalScenario | c_src/porter/porter.cpp:309-341 | Any terminal poll after running polls ends the loop successfully, with that poll's snapshot as the last status. |
| Supervisor.ParseLabel | c_src/porter/porter.cpp:159 | A recognised state label is the label of the state it names. |
| Supervisor.ParseLabelInverse | c_src/porter/porter.cpp:159 | Each state label parses back to its own state, so the three labels are distinct. |
| Supervisor.ProcessFields | c_src/porter/porter.cpp:156-162 | The status tuple has six fields: atom, integer, string, integer, integer, string. |
| Supervisor.DecodeProcess | c_src/porter/porter.cpp:155-163 | A status is read only from a tuple. |
| Supervisor.DecodeProcessTuple | c_src/porter/porter.cpp:155-163 | Every status the porter sends, `{process, Pid, State, ExitCode, Signal, Comment}`, reads back as the same status. |
| Autogen.TablesShareKeys | scripts/autogen_helpers.py:11-87 | `types`, `type_suffix` and `printer` have the same keys. |
| Autogen.KnownSpec | scripts/autogen_helpers.py:37-61 | Every type spec is a lower-case name followed by `()`, and its suffix is longer than one character. |
| Autogen.TablesAgree | scripts/autogen_helpers.py:11-87 | A type prints with `%s` exactly when it is a `std::string`. It is an opaque `ETERM*` exactly when its suffix and printer are `eterm`. A `str` suffix is a `std::string`. |
| Autogen.StripLeft | scripts/autogen_helpers.py:103 | Stripping the left drops exactly a leading run of whitespace: the result is a suffix that does not start with whitespace. |
| Autogen.StripRight | scripts/autogen_helpers.py:103 | Stripping the right drops exactly a trailing run of whitespace. |
| Autogen.Strip | scripts/autogen_helpers.py:103 | `strip` never lengthens and leaves no whitespace at either end. |
| Autogen.StripSlice | scripts/autogen_helpers.py:103 | The stripped string is a slice of the input with only whitespace outside it. |
| Autogen.StripPadded | scripts/autogen_helpers.py:103 | Stripping whitespace padding from a trimmed string gives the string back. |
| Autogen.Cap | scripts/autogen_helpers.py:97 | `title` upper-cases a letter that starts a word and lower-cases one inside a word, keeping the letter itself (the same lower-case form); non-letters pass through unchanged. |
| Autogen.Title | scripts/autogen_helpers.py:97 | Title-casing keeps the length. |
| Autogen.TitleAt | scripts/autogen_helpers.py:97 | Each character is capitalised exactly when the character before it is not a letter. |
| Autogen.TitleIdempotent | scripts/autogen_helpers.py:97 | Title-casing twice is the same as title-casing once. |
| Autogen.RemoveBracesFirst | scripts/autogen_helpers.py:95 | The first `{}` pair is removed: whatever comes before it is kept, and removal goes on after it. |
| Autogen.RemoveBracesAbsent | scripts/autogen_helpers.py:95 | A name without a `{}` pair is unchanged. |
| Autogen.RemoveBracesKeeps | scripts/autogen_helpers.py:95 | Removing `{}` pairs keeps every non-brace character, in order. |
| Autogen.RemoveBracesNested | scripts/autogen_helpers.py:95 | Like Python's single left-to-right `replace`, `{{}}` becomes `{}`. |
| Autogen.StructParamType | scripts/autogen_helpers.py:90-97 | `is_struct` holds exactly when the spec contains `#`. A non-record keeps its name. A record keeps every non-brace character after a leading `#`; which `{}` pairs it loses is stated by StructParamDropsPair. The type name is `Swm` followed by the title-cased raw name. |
| Autogen.StructParamDropsPair | scripts/autogen_helpers.py:90-97 | A record spec `#a{}b` with no pair in `a` is a record whose raw name is `a` followed by `b` with its pairs removed. |
| Autogen.StructParamOfRecord | scripts/autogen_helpers.py:90-97 | `#name{}` gives `(Swm + Title(name), name, true)`. |
| Autogen.StructParamOfPlain | scripts/autogen_helpers.py:90-97 | A spec without `#` gives `(Swm + Title(r), r, false)`. |
| Autogen.RecognizeSpelling | scripts/autogen_helpers.py:103-109 | An element surrounded by any whitespace is recognised as a given kind exactly when its trimmed text is that kind's spelling (`atom()`, `string()`, `any()`). |
| Autogen.GetTupleTypeSuffixes | scripts/autogen_helpers.py:100-110 | The tuple type is the concatenation, in order, of the suffixes of the recognised elements; others add nothing. |
| Autogen.ParseSuffixesInverse | scripts/autogen_helpers.py:100-110 | The suffix string can be parsed back into the exact sequence of recognised elements. |
| Autogen.GetTupleTypeInjective | scripts/autogen_helpers.py:100-110 | Two specs get the same tuple type exactly when they recognise the same elements in the same order. |
| Autogen.GetTupleTypeAppend | scripts/autogen_helpers.py:100-110 | The tuple type of concatenated specs is the concatenation of their tuple types. |
| Autogen.AtomStringTupleType | scripts/autogen_helpers.py:100-110 | `[atom(), string()]` gives `_atom_str`. |
| Autogen.CStruct | scripts/autogen_helpers.py:113-121 | The struct name always starts with `SwmTuple`. |
| Autogen.PartsAppend | scripts/autogen_helpers.py:115-120 | The struct name of concatenated specs is built from the parts of each, in order. |
| Autogen.StructPartOfKnown | scripts/autogen_helpers.py:116-120 | A known type spec, with any surrounding whitespace, contributes its title-cased suffix. |
| Autogen.StructPartOfUnknown | scripts/autogen_helpers.py:116-120 | An element that is not a type spec contributes itself, title-cased, when longer than one character. |
| Autogen.StructPartShort | scripts/autogen_helpers.py:119-120 | An element that strips to at most one character contributes nothing. |
| Autogen.CStructOfKnownPair | scripts/autogen_helpers.py:113-121 | Two known type specs give `SwmTuple` followed by both title-cased suffixes, in order. |
| Autogen.AtomStringStruct | scripts/autogen_helpers.py:113-121 | `[atom(), string()]` gives `SwmTupleAtomStr`. |

## Left out

- **The `print` methods** of every entity (wm_account.cpp:167-192 and the like) only write debug text to stderr.
- **The porter's command line and logging** (`parse_opts`, `print_usage`, the `swm_log*` calls, `ei_print_term`) are left out.
  - The one effect of `ei_print_term` that matters is kept (`Terms.PastTerm`): it moves the shared cursor past a failing field.
- **System calls are not performed.** `fork`, `getpwnam`, the script write, `chmod`, `chown`, `setregid`, `setreuid`, `setenv`, `chdir`, `fopen`, `dup2`, `execve`, `waitpid` and `sleep` are trace events. Their results come from oracle parameters.
  - Sleeps are counted, not timed.
  - The start-up `sleep(2)` (porter.cpp:215) and the final `wait` (porter.cpp:344) are not modelled.
  - `fclose` after `dup2` is not modelled.
  - The environment is a map; `getenv("PATH")` is a lookup in it.
- **Byte-level encoding is not modelled.** `erl_mk_*`, `erl_encode`, `swm_write_exact` and the `ei_decode_*` byte formats are out of scope. Terms are token sequences, and the status tuple is a term value.
  - A failed `erl_encode` (no bytes) is the `sent == false` flag of a poll. The result of `swm_write_exact` (porter.cpp:177) is not checked by the source, so a failed write is not modelled.
  - The script write: only whether the file opened is checked (porter.cpp:188-193). `file << content` and `close()` (porter.cpp:194-195) are unchecked, and a failed write is not modelled.
- **Empty strings:** `ei` may encode an empty string as `NIL_EXT`. The model always writes a string as one string token.
- **Helpers whose code is outside the model:**
  - the `wm_entity_utils` decoders are the primitives in `primitives.dfy`;
  - `ei_buffer_to_resource`, `ei_buffer_to_executable` and `ei_buffer_to_tuple_atom_eterm` are parameters (`Externals`);
  - `get_porter_data` and `parse_data` together are the optional `info` input of `Porter.Main`.
- **`eterm_to_queue` / `_grid` / `_group` / `_metric`** refer to undeclared identifiers and have no behaviour to model.
- **Entity defaults:** the constructors without arguments have empty bodies (for example wm_account.cpp:13-14), and the member initialisers are in headers that are not part of this model. Every `Default` assumes empty strings and lists and zero numbers. The "defaults" in each Decode, DecodePrefix and ToFromFields row mean these assumed values.
- **Floating-point values** (`value_float64`) are carried as opaque 64-bit patterns.
- **The numeric exit codes** come from `exitcodes.h` and the state labels from `SWM_JOB_STATE_*`. Neither header is part of this model. Exit codes are named constructors, and the labels are `running`, `finished` and `error`.
- **The exit status is not reduced modulo 256.** The status passed to `exit` after a failed `setregid`/`setreuid` is kept as the full integer.
- **Python's `str.title` over Unicode** is modelled for ASCII letters only; every other character is treated as uncased.
- **The `exclude` set** (autogen_helpers.py:4-9) is not read by the three modelled functions.
- **The user name pointer:** porter.cpp:242 keeps `info.user.get_name().c_str()`. The generated getters return `std::string` by value (as at wm_account.cpp:104), so the pointer refers to a temporary that is destroyed at the end of that statement. The `getpwnam(username)` calls at porter.cpp:248 then read freed memory, which is undefined behaviour. The model reads the user name intact (`ProcInfo.userName`), as the code evidently intends.
- **The `PATH` variable:** Porter.SetEnvironment and Porter.Main require `PATH` to be set when the job names a working directory. The code then concatenates `getenv("PATH")`, which is a null pointer when `PATH` is unset; that is undefined behaviour.
- Autogen.StructPartWith: its own contract states only that a non-empty part is longer than one character. What each element contributes is stated by StructPartOfKnown, StructPartOfUnknown and StructPartShort.
- Autogen.CStruct: its own contract states only the `SwmTuple` prefix. The parts are stated by PartsAppend and CStructOfKnownPair.
- Supervisor.DecodeProcess: its own contract states only that a status is read from a tuple. That it inverts the porter's encoding is DecodeProcessTuple.

## Findings

| source | as written | input that shows it | evidently intended | confidence | as-written member | corrected member |
|---|---|---|---|---|---|---|
| c_src/lib/wm_account.cpp:154 | The element loop switches on `ei_get_type`'s return code (0 or -1), which never equals `ERL_SMALL_TUPLE_EXT` or `ERL_LARGE_TUPLE_EXT`, so no account is ever appended and the cursor never moves | any non-empty list of encoded accounts, e.g. `[{"a","b","p",[],[],"",1}]`: returns 0 with the array unchanged | switch on the reported `type`, appending each tuple element in order | not executed | Account.AsWrittenDropsAccounts | Account.DecodeListEncoded |
| c_src/lib/wm_hook.cpp:155 | The same switch on the return code, so no hook is ever appended | any non-empty list of encoded hooks: returns 0 with the array unchanged | switch on the reported `type`, appending each tuple element in order | not executed | Hook.AsWrittenDropsHooks | Hook.DecodeListEncoded |
