# pygadget in Dafny

A model of the core of pygadget. The library describes a USB gadget in memory (device attributes and strings, configurations, functions) and projects it onto the Linux configfs tree. Projecting means creating directories, writing attribute files and linking functions into configurations. The library then activates the gadget by writing a controller (UDC) name into the gadget's `UDC` file. The model also covers its keyboard report writer, which turns text into 8-character HID key-press and key-release reports.

The model is split into modules:

- `Outcomes` (outcomes.dfy): the exceptions the code raises, as values: `Unbound`, `AlreadyBound`, `BindError`, `FileExists`, `FormatError`, `HostError` and `LookupError`.
- `Text` (text.dfy): Python's `str(int)` and the `0x{:04x}`/`03x`/`02x` renderings, each with a parser and a round-trip lemma.
- `FileTree` (filetree.dfy): the host filesystem.
  - It is an in-memory map from paths (sequences of names) to `Dir | File(content) | Link(target)`.
  - `makedirs`, `open(...).write` and `symlink` are functions that return the new tree and an outcome.
  - `os.path.exists` is a predicate on the tree, and `read` returns the file's text or an error.
  - `Host` is a class holding that tree and the controller listing.
- `Serialization` (serialization.dfy): `_dict_factory`/`get_dict_factory` and the per-value rendering of `store_attrs`.
  - Each record kind has an explicit descriptor table: name, `repr` metadata, `dict_ommit` flag and value.
- `Entities` (entities.dfy): `GadgetFunction` (a value), `GadgetConfig` (a class, because `bind_fuction` appends in place) and their full names.
- `Projection` (projection.dfy): the specification of the projection engine.
  - Each operation is a list of host commands (`Mkdir`, `Store`, `StoreMap`, `Bind`).
  - `Exec` interprets the list and stops at the first command that raises.
  - The layout, order, `force` and controller-selection properties are proved here about these plans.
- `Gadget` (gadget.dfy): the classes `GadgetSpace` and `USBGadget`.
  - Every method that touches the host loops and writes as the source does.
  - Each is proved to leave exactly the tree and outcome that `Exec` of its plan gives, so the plan lemmas apply to the methods.
- `Keyboard` (keyboard.dfy): `ModifierKeys` and `ReportWriter`.
  - `write_text` is a method on the class, proved against the pure `Encode`.

Behaviour of the code that the model keeps as written:

- **`None` values:** a `None` field value is not skipped. It is written as the text `None` and a newline.
- **Unknown transforms:** an unknown `repr` name is not an error. The value passes through unchanged.
- **No hex rendering:** none of the library's records declares `repr` metadata, so device attributes such as `idVendor` are written in decimal, not hex.
- **Swallowed `FileExistsError`:** `add_to_space` swallows a `FileExistsError` from any step of `add_gadget`, not only from the gadget directory. What was written before stays.
- **Verbatim controller comparison:** `udcs()` compares controller names with the verbatim content of `UDC` files, trailing newline included. After `bind_udc` the `UDC` file holds the controller name and a newline, so the controller just bound is still offered by `udcs()` unless some claim equals its bare name (`Projection.BoundControllerOffered`, `Projection.NewlineClaimsExcludeNothing`).

## Model

| member | source | states |
|---|---|---|
| Text.DigitChar | gadget.py:50-52 | a digit below 16 becomes one lower-case hex digit character that reads back as that digit |
| Text.DigitsRoundTrip | gadget.py:50-52 | the digits of a number in a base read back as the number, and are at least one valid digit |
| Text.DigitsLength | gadget.py:50-52 | a number needs at most `w` digits exactly when it is below base^w (the width is a minimum, never a truncation) |
| Text.PadZeroKeeps | gadget.py:50-52 | zero padding reaches the width (or keeps a longer text), keeps digits valid and keeps the value |
| Text.ParseIgnoresZeros | gadget.py:50-52 | leading zeros do not change the value of a digit string |
| Text.DecimalRoundTrip | gadget.py:139 | `str(i)` of an integer parses back to `i` and holds only '-' and decimal digits |
| Text.DecimalDigitsOnly | gadget.py:115 | a base-10 digit string holds only '0' to '9' (so a configuration number's text holds no '.') |
| Text.HexFormatShape | gadget.py:49-53 | `0x{i:0wx}` of a non-negative `i` is "0x" then lower-case hex digits that read back as `i`, exactly `w` of them when `i` fits and more otherwise |
| Text.HexFormatNegative | gadget.py:49-53 | a negative value renders as "0x-" followed by the hex digits of its magnitude |
| FileTree.MakeDirs | gadget.py:180 | `makedirs(p, exist_ok)`: raises FileExists exactly when `p` exists and is not (with `exist_ok`) a directory; on success `p` is a directory; on failure nothing changes |
| FileTree.Symlink | gadget.py:204 | `symlink`: raises FileExists exactly when the link path exists; on success only that path is added, as a link to the target; on failure nothing changes |
| FileTree.Write | gadget.py:137-143 | `open(..., 'w'/'wb').write`: on success the file the path leads to holds the content and nothing else changes; a failure is a host error that changes nothing |
| FileTree.MakeDirsValid | gadget.py:180 | `makedirs` keeps every node under a directory and every existing entry as it was; every entry it adds is a directory on the way to the requested path |
| FileTree.SymlinkValid | gadget.py:204 | `symlink` only adds and keeps the tree well formed |
| FileTree.WriteValid | gadget.py:137-143 | a write only adds or rewrites a file and keeps the tree well formed |
| FileTree.Host.MakeDirsAt | gadget.py:180 | the host's tree and outcome after `makedirs` are those of `MakeDirs` |
| FileTree.Host.CreateLink | gadget.py:204 | the host's tree and outcome after `symlink` are those of `Symlink` |
| FileTree.Host.WriteFile | gadget.py:137-143 | the host's tree and outcome after a write are those of `Write` |
| Serialization.KeptExactly | gadget.py:38-44 | `include_field` keeps exactly the fields without `dict_ommit`, never more than there are, with distinct names |
| Serialization.SerializeIsKeptFields | gadget.py:24-44 | the map has one entry per kept field, in declaration order, named after the field, holding `field_value`; it fails (FormatError) exactly when some kept field's transform fails |
| Serialization.TransformRule | gadget.py:28-53 | a transform applies only to a non-None value whose `repr` is hex16/hex12/hex8; it then renders "0x" and 4/3/2 lower-case hex digits reading back as the integer (exactly that many when it fits); a non-integer raises; otherwise the value is unchanged |
| Serialization.NoReprMetadata | gadget.py:57-89 | none of the library's record kinds declares `repr` metadata, so every field value passes through |
| Serialization.VerbatimFields | gadget.py:33-36 | fields with no applicable transform always serialise, each kept field to its own value |
| Serialization.BuiltinRecordsVerbatim | gadget.py:57-89 | every record kind of the library serialises, to its kept fields' own values (None stays None, integers stay integers) |
| Serialization.LangNeverSerialized | gadget.py:69-84 | the `lang` field of a strings record never appears in the serialised map |
| Serialization.SerializedKeysDistinct | gadget.py:43-44 | the serialised map has distinct keys |
| Serialization.RenderReadsBack | gadget.py:137-143 | bytes are written verbatim; any other value as its text and exactly one newline: a string itself, an integer in decimal, None as "None" |
| Entities.GadgetConfig.constructor | gadget.py:105-111 | a new configuration has the given name, number, attributes and strings and no functions |
| Entities.GadgetConfig.BindFunction | gadget.py:117-118 | `bind_fuction` appends the function at the end (order kept, duplicates allowed) and does not change the full name |
| Entities.FunctionFullNameRoundTrip | gadget.py:99-101 | a function's full name is its name, '.', its instance name, and splits back at the first '.' when the name holds none |
| Entities.ConfigFullNameRoundTrip | gadget.py:113-115 | a configuration's full name is its name, '.', and the decimal number, and always splits back at the last '.' into both |
| Projection.ExecAppend | gadget.py:218-237 | running two command lists is running the first and, only if it passed, the second on what it left |
| Projection.ExecExtends | gadget.py:218-237 | nothing a run does is undone, whether it passes or fails: earlier writes remain, directories stay directories, links keep their targets |
| Projection.ExecEstablishes | gadget.py:180 | in a passing run every created directory is a directory at the end, and every link path is occupied (without `force`, by the link made) |
| Projection.LayoutOrder | gadget.py:218-237 | in creation steps followed by links and at most one `StoreMap`, records follow their directories, no directory follows a link, and the `StoreMap` is last |
| Projection.PlanOrder | gadget.py:218-237 | `add_gadget` starts with the gadget directory, stores every record after its directory, creates every directory before any link, and writes the `UDC` file last and only for a non-empty `UDC` |
| Projection.PlanHas | gadget.py:218-237 | `add_gadget` creates the gadget, its strings, every configuration with its strings and every function, and links every bound function into its configuration |
| Projection.PlanOnly | gadget.py:218-237 | the converse of `PlanHas`: every step of `add_gadget` creates a directory of the layout (with `exist_ok=force`), stores into one, makes a link of the layout (with `force`), or writes the gadget's `UDC` file |
| Projection.PlanExactly | gadget.py:218-237 | the directories `add_gadget` creates are exactly the layout's directories, and the links it makes exactly the layout's links, all under the caller's `force` |
| Projection.ExecStaysUnder | gadget.py:158-165 | a run of commands whose paths lie under one directory, passing or failing, changes nothing outside that directory and the way to it, and makes no link that leads out of it |
| Projection.AddGadgetFrame | gadget.py:218-237 | every path `add_gadget` names lies under the gadget's directory; when the links already there point into it, a run changes nothing outside that directory and the way to it |
| Projection.AddGadgetLayout | gadget.py:218-237 | after a passing `add_gadget` all those directories exist, and every bound function's entry is present in its configuration (a link to the function directory without `force`) |
| Projection.NoForceExistingGadget | gadget.py:220 | without `force`, an existing gadget directory raises FileExists before anything is written |
| Projection.ForceRules | gadget.py:180-204 | `exist_ok=force`: an existing path raises without force, an existing directory is tolerated with it; an occupied link path raises without force and is skipped with it unless the link dangles |
| Projection.WriteEntriesFrame | gadget.py:160-165 | the writes of `store_attrs` touch only the entries' own paths |
| Projection.WriteEntriesOutcome | gadget.py:160-165 | the writes pass exactly when every entry's path is absent or a file, and then each holds its entry's rendering |
| Projection.StoreAttrsEffect | gadget.py:158-165 | `store_attrs` raises when its target is not a directory; otherwise writes one file per entry named by the key, passing exactly when all may be written, and changes nothing else |
| Projection.WriteThenRead | gadget.py:132-139 | a text written to a file is what reading it returns |
| Projection.UdcFileContent | gadget.py:239-243 | `bind_udc` writes the controller name and a newline into the gadget's `UDC` file, and nothing for an unset or empty name |
| Projection.AddGadgetUdc | gadget.py:236-237 | after a passing `add_gadget` with a non-empty `UDC` the `UDC` file holds that name and a newline |
| Projection.UnclaimedSpec | gadget.py:151-156 | `udcs` keeps exactly the unclaimed listed controllers in listing order; it is empty exactly when all are claimed; its first is the first unclaimed; with nothing claimed it is the whole listing |
| Projection.SelectControllerSpec | gadget.py:274-285 | `enable` takes a given controller as is; otherwise the first listed controller not claimed by a `UDC` file, raising BindError exactly when all are claimed and propagating a failure to read the claims |
| Projection.BoundControllerOffered | gadget.py:145-156 | after `bind_udc` of a non-empty name, `bound_udcs` walks the gadget's directory and reports the name with a newline, so `udcs()` still offers that controller when every claim ends in a newline and the name does not |
| Projection.NewlineClaimsExcludeNothing | gadget.py:145-156 | claims that all end in a newline exclude no controller whose name does not, since the comparison is verbatim |
| Gadget.GadgetSpace.constructor | gadget.py:127-130 | the gadget root is the configfs path followed by `usb_gadget` |
| Gadget.GadgetSpace.StoreAttrs | gadget.py:158-165 | the write loop leaves exactly the tree and outcome of `store_attrs`' specification |
| Gadget.GadgetSpace.StoreFromRecord | gadget.py:167-170 | serialise, then `store_attrs`; a failing transform changes nothing |
| Gadget.GadgetSpace.CreateRecordDir | gadget.py:219-229 | a directory, its attributes, then `strings/<lang>` and its strings, stopping at the first failure, exactly as the plan runs |
| Gadget.GadgetSpace.AddConfig | gadget.py:172-189 | `add_config` leaves exactly what its plan leaves |
| Gadget.GadgetSpace.AddFunction | gadget.py:206-216 | `add_function` leaves exactly what its plan leaves |
| Gadget.GadgetSpace.LinkFunction | gadget.py:203-204 | one link: created unless `force` holds and the path leads somewhere |
| Gadget.GadgetSpace.BindFunctions | gadget.py:191-204 | the linking loop leaves exactly what the plan of links leaves, stopping at the first failure |
| Gadget.GadgetSpace.AddConfigs | gadget.py:230-231 | the configurations loop of `add_gadget` leaves exactly what the configurations' plans leave |
| Gadget.GadgetSpace.AddFunctions | gadget.py:232-233 | the functions loop of `add_gadget` leaves exactly what the functions' plans leave |
| Gadget.GadgetSpace.BindConfigs | gadget.py:234-235 | the linking loop of `add_gadget` leaves exactly what every configuration's links leave |
| Gadget.GadgetSpace.AddGadget | gadget.py:218-237 | `add_gadget` leaves exactly the tree and outcome of `Exec` of the gadget plan (so `PlanOrder`, `AddGadgetLayout` and `AddGadgetUdc` hold of it) |
| Gadget.GadgetSpace.BindUdc | gadget.py:239-243 | `bind_udc` leaves exactly what the `UDC` plan leaves |
| Gadget.GadgetSpace.Udcs | gadget.py:151-156 | the loop yields exactly the available controllers (all listed ones, or the unclaimed ones when `unbound_only`), in order |
| Gadget.USBGadget.constructor | gadget.py:247-258 | a new gadget has the given parts, no space and no controller |
| Gadget.USBGadget.BindToSpace | gadget.py:269-272 | refused with AlreadyBound exactly when bound and not forced; otherwise the space is replaced; nothing else changes |
| Gadget.USBGadget.AddToSpace | gadget.py:260-267 | without a space raises Unbound and writes nothing; otherwise `add_gadget` runs and a FileExists failure from any step is swallowed, keeping what was written |
| Gadget.USBGadget.Enable | gadget.py:274-285 | without a space raises Unbound; otherwise the selected controller becomes `UDC` and is written by `bind_udc`; when none is available, `UDC` and the tree stay as they were |
| Keyboard.MasksAreSingleBits | keyboard.py:6-14 | every modifier mask is a single bit below 0x100, and distinct modifiers have distinct masks |
| Keyboard.EveryBitIsAModifier | keyboard.py:6-14 | each of the eight bits of the modifier byte is some modifier's mask |
| Keyboard.Typeable | keyboard.py:30-36 | counts the leading characters the layout can type: each has a press report, and the one after them has none |
| Keyboard.PressShape | keyboard.py:31-38 | a press report exists exactly when the layout maps the lower-cased character; it has 8 characters: shift (0x20) or NUL, NUL, the key code of the lower-cased character, five NULs |
| Keyboard.EncodeCount | keyboard.py:30-39 | two reports per typeable leading character; the text completes exactly when every character is typeable and fails with a lookup error otherwise |
| Keyboard.EncodePairs | keyboard.py:37-39 | report 2k is the k-th character's press report and report 2k+1 is eight NULs |
| Keyboard.EncodeWidth | keyboard.py:37-39 | every report sent is 8 characters long |
| Keyboard.ReportWriter.constructor | keyboard.py:17-22 | a new writer uses the given layout and has sent nothing |
| Keyboard.ReportWriter.Send | keyboard.py:24-25 | `send` appends one report to what the device received |
| Keyboard.ReportWriter.WriteText | keyboard.py:27-39 | the loop sends exactly the reports of `Encode` and ends with its outcome: earlier characters' reports stay sent when a lookup fails |

## Left out

- Real OS calls (`open`, `os.makedirs`, `os.symlink`, `os.path.exists`, `os.walk`) act on an in-memory tree. The kernel-side behaviour of configfs (attribute validation, directories the kernel creates itself) is not modelled.
- `os.chdir` in `store_attrs` is not modelled as process state. The writes go to absolute paths under the directory the change would enter.
- Symbolic links are followed one step, at the last component of a path. A link in the middle of a path is not followed, which the gadget layout never needs.
- `print` logging is left out.
- `bound_udcs` and `udcs` walk directories. The model has the gadget root's entries as a set, whose iteration order is lost; only membership matters to `udcs`. The controller registry is a flat listing (`Host.controllers`) in host order, in place of the recursive `os.walk` of `udc_path`.
- Python dataclass reflection (`asdict`, `fields`, `metadata`) is replaced by an explicit descriptor table per record kind.
- Projection.GadgetDir, Projection.ConfigDir, Projection.FunctionDir: every name is kept as one literal path component. The operating system would resolve some of them instead:
  - a name containing '/' would be split into several components;
  - the names `""`, `"."` and `".."` would resolve to the parent directory or the one above it.
  - For example, a gadget named `""` added with `force` would have its attribute files, `strings`, `configs` and `functions` written straight into the gadget root. Without `force`, `makedirs` would raise `FileExistsError` on the existing root, `add_to_space` would swallow it, and nothing would be written. The model instead creates a new directory `gp + [""]`.
  - Likewise, a function whose name and instance are both empty has the full name `"."`, which would resolve to the `functions` directory itself.
- `hid_gadget.py` is static data. Only `HIDGadgetFunctionAttributes` (hid_gadget.py:42-47) is kept, as a record kind with a bytes field.
- In keyboard.py:
  - the device handle (`open(device, 'rb+')`) and the `__main__` block are not modelled;
  - `send` records the report as characters, without the UTF-8 `encode`.
- Projection.WriteEntriesFrame, Projection.WriteEntriesOutcome, Projection.StoreAttrsEffect: these state the effect of `store_attrs` only for directories where no entry file is a link. A write through such a link lands at the link's target instead, and the gadget layout never creates one.
- FileTree.ReadText: a file written as raw bytes reads back with each byte taken as the character of the same code, not decoded as UTF-8.
- Keyboard.Keycode: layout key codes are restricted to values below 0x80, so that UTF-8 encoding would keep each report at 8 bytes. The HID descriptor's logical maximum is 0x65.
- Keyboard.Charmap: the `keyboard_layout_us` table is not part of this model. It is a parameter, a partial map from character codes to key codes.
- Keyboard.IsUpper: `str.isupper` and `str.lower` are modelled for the ASCII letters only. Non-ASCII upper-case letters are treated as not upper case.
