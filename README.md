# A Dafny model of the LIS scenario-test base classes

`tempest/lis/manager.py` is the base of the LIS (Linux Integration Services)
scenario tests for tempest. Most of it is glue around REST, SSH and
PowerShell/WinRM clients. This project models the sequential logic inside that
glue and proves what it promises. The model has three parts.

- **Cleanup and async-delete coordination** (`cleanup.dfy`, `scenario_test.dfy`).
  - The class `Scenario.TestCase` holds the test's cleanup stack, `cleanup_waits`, the attached disk names and the test-file path.
  - Its methods are `setUp`, `addCleanup`, `addCleanup_with_wait` and `_wait_for_cleanups`. So are the registering parts of `create_server`, `create_volume`, `_create_subnet`, `add_disk`, `add_pass_disk`, `add_diff_disk` and `create_test_file`.
  - `DoCleanups` drains the stack as unittest does: newest first, recording each error and going on.
  - The wait loop (`WaitForCleanups`, `VisitWaits`) and the drain (`DoCleanups`) are proved against specification functions of module `Cleanup`: `RunWaits` for the FIFO wait loop and `DrainSpec` for the LIFO drain. The resource factories state outright the entries they push, and `CreateSubnet` is specified by the allocation search `Subnets.SearchCidrs`. The lemmas of `Cleanup` prove the ordering: every cleanup registered after `setUp` is run before any wait recorded in `cleanup_waits`, and those waits run in registration order.
- **Bounded search and retry loops.**
  - The CIDR allocation loop of `_create_subnet` (`subnets.dfy`).
  - The Neutron `_create_loginable_secgroup_rule` (`secgroup_rules.dfy`).
  - `get_server_ip`, `_get_server_port_id_and_ip4` and `_node_state_timeout` (`selection.dfy`).
- **Unit conversions and string formatting of `LisBase`** (`lis_sizes.dfy`).
  - "MB"/"GB" sizes and the `resize_disk` target.
  - RAM settings in bytes and megabytes.
  - The disk names.
  - The memory-stress parameters.
  - They rest on models of the Python 2 built-ins they use (`text.dfy`): `str(n)`, `long(s)`, `s.replace(t, '')`, `endswith`, `in`, `split`, `join`, `lower` and `rstrip`.

Remote calls are parameters.
- A remote call that answers once is a value (`created`, `shown`, `attached`, `out`).
- A remote call made in a loop is a function, for example `create: string -> Result<Subnet>`.
- The calls made while draining are answered by `respond: Call -> Outcome`.

Errors are the datatype `Errors.Error`. It distinguishes `NotFound`, `Conflict(msg)`, assertion failures, `ValueError`, `KeyError`, `IndexError`, `TypeError`, raised exceptions, timeouts, `ServerUnreachable` and `InvalidConfiguration`.

`_create_subnet` checks the created subnet's CIDR before it registers the subnet's delete. A subnet created on a block other than the one asked for is therefore left without a cleanup. `create_volume` differs: it registers both of its cleanups before its name check (manager.py:279-288). The model follows each as written (`Scenario.TestCase.CreateSubnet`, `Scenario.TestCase.CreateVolume`).

## Model

| member | source | states |
|---|---|---|
| Cleanup.WaitRecordFor | tempest/lis/manager.py:134-141 | The wait dict has exactly the keys `waiter_callable` and `thing_id_param`, plus `client` only when a waiter client is given. It maps `waiter_callable` to the waiter and the id parameter to the id, and a later key overwrites an earlier equal one. |
| Cleanup.WaitRecordCall | tempest/lis/manager.py:134-153 | A record built with an id parameter other than `waiter_callable` can be called. After the pop, its waiter receives exactly `{thing_id_param: id}`, plus `client` when a client was given. |
| Cleanup.RunWaits | tempest/lis/manager.py:143-153 | The specification of _wait_for_cleanups: pop each record's waiter in order and call it with the rest of the record, stopping at the first exception. cleanup_waits keeps its length: a pop removes a key, not a record. |
| Cleanup.DeleteWrapped | tempest/lis/manager.py:102-115 | delete_wrapper returns normally exactly when the delete returned or raised NotFound. Any other error comes out unchanged. |
| Cleanup.DeleteWrapperIdempotent | tempest/lis/manager.py:102-115 | Deleting the same id twice through delete_wrapper returns normally both times, whether or not the id existed, and leaves it deleted. |
| Cleanup.RunWaitsFacts | tempest/lis/manager.py:143-153 | _wait_for_cleanups runs first-in first-out. The k-th call is the k-th record's waiter, called with that record minus `waiter_callable`, and every call before the last returned normally. Without a failure every record was visited. If every record is callable and every waiter returns, there is no failure. |
| Cleanup.RunWaitsShape | tempest/lis/manager.py:151-153 | The k-th waiter call and the k-th record left behind both come from the k-th record, with its waiter popped. |
| Cleanup.RunWaitsProgress | tempest/lis/manager.py:151-153 | The loop stops early only on an exception, and only the last waiter called can have raised. |
| Cleanup.LifoCallsAt | tempest/lis/manager.py:100 | Draining plain entries calls the entry i places from the top of the stack at step i. |
| Cleanup.DrainSpec | tempest/lis/manager.py:90-100 | The specification of unittest's doCleanups over the stack: the newest entry runs first, its errors are recorded and the rest is drained. cleanup_waits keeps its length. |
| Cleanup.LifoErrorsComplete | tempest/lis/manager.py:100 | Every failing cleanup's error is in the aggregate, however many other cleanups failed, and there is at most one error per entry. |
| Cleanup.DrainPlain | tempest/lis/manager.py:100 | Draining entries that do not include _wait_for_cleanups calls each of them once, newest first, and leaves cleanup_waits alone. |
| Cleanup.DrainConcat | tempest/lis/manager.py:100 | Entries registered later are all drained before the earlier ones, and the earlier ones are drained as if alone. |
| Cleanup.DrainAfterSetUp | tempest/lis/manager.py:90-100 | With _wait_for_cleanups between the earlier entries and the test's own, the drain calls the test's cleanups newest first, then the waiters in FIFO order, then the earlier entries. Errors are gathered in the same order. |
| Cleanup.DeletesBeforeWaits | tempest/lis/manager.py:90-100 | The same, call by call. Positions before the waits hold exactly the test's cleanups, newest first. The k-th waiter call is the k-th record's waiter. Then come the cleanups registered before setUp. |
| Scenario.VolumeDeleteThenWait | tempest/lis/manager.py:279-282 | create_volume registers the wait before the delete, so draining issues the volume's delete first and then the wait for its deletion, before anything registered earlier. |
| Scenario.ServerThenVolume | tempest/lis/manager.py:250-282 | A test that boots a server and then creates a volume tears down in this order, whatever the remote calls answer: volume delete, volume deletion wait, server delete. With wait_on_delete (create_server's default) the plain wait_for_server_termination(servers_client, id) comes next. Last is the cleanup_waits termination wait, with server_id and the servers client. |
| Scenario.VisitWaits | tempest/lis/manager.py:151-153 | The loop's calls, the records it leaves and the exception that ended it are those of the FIFO specification RunWaits. |
| Scenario.TestCase.SetUp | tempest/lis/manager.py:90-100 | The base setUp's cleanups are pushed first, cleanup_waits starts empty, and _wait_for_cleanups is pushed last. Afterwards it is in the stack exactly once, at the recorded index. |
| Scenario.TestCase.AddCleanup | tempest/lis/manager.py:130 | addCleanup pushes exactly one entry and changes nothing else. Pushing anything but _wait_for_cleanups keeps it in the stack exactly once. |
| Scenario.TestCase.AddCleanupWithWait | tempest/lis/manager.py:117-141 | Exactly one cleanup entry is pushed, with missing args and kwargs as empty, and exactly one wait record is appended. Nothing else changes. |
| Scenario.TestCase.WaitForCleanups | tempest/lis/manager.py:143-153 | The calls, the failure and the new cleanup_waits are those of RunWaits on the old cleanup_waits. The stack is unchanged. |
| Scenario.TestCase.DoCleanups | tempest/lis/manager.py:90-100 | The stack ends empty, and the calls, errors and final cleanup_waits are those of DrainSpec on the old state. After setUp this means: the test's cleanups newest first, then the waits in FIFO order, then the earlier cleanups. |
| Scenario.TestCase.CreateVolume | tempest/lis/manager.py:267-293 | Once the create returned an id, the deletion wait and then the delete are registered, even when the name check, the status wait or the show fails. The result is the shown volume exactly when every step succeeds. A missing id is a KeyError that registers nothing. |
| Scenario.TestCase.CreateServer | tempest/lis/manager.py:250-262 | After a boot, wait_on_delete optionally pushes a plain termination wait. Then the delete, through delete_wrapper, and one wait record for server_id and the servers client are registered. A failed boot registers nothing. |
| Scenario.TestCase.CreateSubnet | tempest/lis/manager.py:743-806 | The result and the creates made are those of the allocation loop, including an error raised by the in-use query (_list_subnets). The subnet's delete is registered through delete_wrapper only when the subnet passes both assertions. |
| Scenario.TestCase.AddDisk | tempest/lis/manager.py:1596-1618 | After a successful attach, exactly the add_disk name is appended to disks and a remove_disk cleanup with that same name is pushed. A failed attach changes nothing. |
| Scenario.TestCase.AddPassDisk | tempest/lis/manager.py:1620-1638 | The same, with the PassThrough disk name. |
| Scenario.TestCase.AddDiffDisk | tempest/lis/manager.py:1640-1658 | The same, with the differencing disk name. |
| Scenario.TestCase.CreateTestFile | tempest/lis/manager.py:1914-1938 | A failed default_vhd_path lookup raises before anything is set. Otherwise the file name carries the time stamp, and the path is the rstripped VHD path, a backslash and that name. A bad size raises before anything is registered. The result is the parsed size exactly when fsutil reports the file created, and only then is remove_file registered. |
| Scenario.ServerAndVolumeTeardown | tempest/lis/manager.py:250-293 | Running setUp, create_server (with or without wait_on_delete), create_volume and the drain on an actual TestCase yields the calls ServerThenVolume states, for any answers to the calls made while draining, with the boot, the volume create, its status wait and its show all succeeding. |
| Subnets.Outcome | tempest/lis/manager.py:800-806 | The result is a subnet exactly when one was created on the block last tried, and it is that created subnet. An exhausted loop fails with "Unable to allocate tenant network", and a propagated error comes out unchanged. |
| Subnets.SearchCidrs | tempest/lis/manager.py:763-799 | The specification of the allocation loop: ask whether each block is in use (an error there ends the loop, before any further create), skip blocks in use, create on the next free one, move on only after an overlap. It makes at most one create per free candidate. |
| Subnets.AllocateSubnet | tempest/lis/manager.py:763-799 | The loop, with an in-use query that can raise. Its result and the CIDRs passed to create are those of the search specification SearchCidrs. |
| Subnets.SearchFacts | tempest/lis/manager.py:776-806 | The creates go, in order, to a prefix of the free candidates: in-use blocks are skipped and there is at most one create per candidate. Every refused create before the last was an overlap. The loop is exhausted exactly when no in-use query raised and every free candidate was tried and overlapped. A success is the last create. Any other error is the last create's own, or else the error of the first in-use query that raised, after every free candidate before it overlapped. |
| Subnets.FourthCandidateWins | tempest/lis/manager.py:776-799 | With three blocks in use and a free fourth, exactly one create is made, on the fourth, and the fifth is never looked at. |
| SecGroupRules.RequestsOrder | tempest/lis/manager.py:1090-1111 | Request 2i+j is ruleset i in direction j: ruleset-major order, ingress before egress. |
| SecGroupRules.WalkRules | tempest/lis/manager.py:1110-1125 | The specification of the rule loop: create each request in turn, keep the rule when its direction matches, skip an "already exists" conflict, stop at any other outcome. What it means is WalkFacts. |
| SecGroupRules.Directed | tempest/lis/manager.py:1110-1111 | The inner loop asks for its ruleset in each direction in turn. |
| SecGroupRules.RequestsAreCross | tempest/lis/manager.py:1090-1111 | The six requests are those of the nested loops over the three rulesets and the two directions. |
| SecGroupRules.CreateDirected | tempest/lis/manager.py:1111-1125 | The inner loop continues the walk specification WalkRules from the rules gathered so far. What it hands to create is a prefix of its requests, and all of them when nothing stopped it. |
| SecGroupRules.CreateRules | tempest/lis/manager.py:1109-1125 | The nested loops return what the walk specification returns. The requests made are a prefix of the loops' requests, and all of them on success. |
| SecGroupRules.CreateLoginableRules | tempest/lis/manager.py:1075-1127 | The same for the three rulesets and two directions: at most six requests, made in order. |
| SecGroupRules.WalkFacts | tempest/lis/manager.py:1110-1125 | The walk succeeds exactly when every request is created in the direction asked for or refused with "Security group rule already exists". It then returns the created rules in order. Otherwise it fails with the error of the first request not tolerated. |
| SecGroupRules.LoginableRulesBound | tempest/lis/manager.py:1075-1127 | At most six rules are returned, each in one of the two directions. |
| SecGroupRules.CreatedDirections | tempest/lis/manager.py:1123-1124 | Every returned rule carries a direction that was requested. |
| Selection.GetServerIp | tempest/lis/manager.py:647-665 | "floating" returns the floating IP. "fixed" returns the first address of the configured version, fails with ServerUnreachable exactly when there is none, and with KeyError when the network is missing. Any other method is InvalidConfiguration. |
| Selection.PortPairsMembership | tempest/lis/manager.py:827-831 | A port contributes exactly its IPv4 fixed addresses, and only when it is ACTIVE. |
| Selection.PortMap | tempest/lis/manager.py:827-831 | port_map holds only IPv4 addresses. Exactly which pairs it holds is PortMapMembership. |
| Selection.PortMapMembership | tempest/lis/manager.py:827-831 | The port map holds exactly the ACTIVE IPv4 (port, address) pairs of the listed ports. |
| Selection.PortIdAndIp4 | tempest/lis/manager.py:823-843 | The call succeeds exactly when the port map has one pair, and returns that pair. |
| Selection.PortIdAndIp4Correct | tempest/lis/manager.py:823-843 | On success the pair is an ACTIVE IPv4 pair and is the only one. Without any such pair the call fails. |
| Selection.NodeStateTimeout | tempest/lis/manager.py:1267-1282 | Every poll before the last made showed a node in another state. The wait succeeds exactly when some poll shows a target state with no get_node error before it, and it stops at that poll. An error raised by get_node ends the wait with that error. Otherwise it times out after all polls, naming the node, the attribute and the target list. A single target counts as a one-element list. |
| LisSizes.TestFileSizeOfFormatted | tempest/lis/manager.py:1920-1929 | "<n>MB" is n·1024², "<n>GB" is n·1024³ and "<n>" is n bytes. |
| LisSizes.TestFileSize | tempest/lis/manager.py:1920-1929 | A size that cannot be parsed raises ValueError, whichever unit it carries. |
| LisSizes.TestFileSizeMB | tempest/lis/manager.py:1920-1923 | "<n>MB" is n·1024² bytes. |
| LisSizes.TestFileSizeGB | tempest/lis/manager.py:1924-1927 | "<n>GB" is n·1024³ bytes. |
| LisSizes.TestFileSizePlain | tempest/lis/manager.py:1928-1929 | A plain "<n>" is n bytes. |
| LisSizes.WithUnitOf | tempest/lis/manager.py:1921-1923 | Removing the unit from "<n><unit>", parsing the rest and scaling by the factor gives n times the factor. |
| LisSizes.ConvertMemorySize | tempest/lis/manager.py:2050-2076 | Only an "MB" or "GB" size can fail. A "%" size is host-relative, and a size with none of the three suffixes comes back unchanged. For "MB"/"GB" it agrees with create_test_file (ConvertAgreesWithTestFile). |
| LisSizes.UnitSuffix | tempest/lis/manager.py:1920-1924 | A decimal number ends in neither unit. With a unit appended it ends in that unit only, and replace removes exactly that unit. |
| LisSizes.ParsedWithUnitRemoved | tempest/lis/manager.py:1705-1706 | "<n><unit>" ends in its unit and parses back to n once the unit is removed. |
| LisSizes.ConvertAgreesWithTestFile | tempest/lis/manager.py:2050-2058 | On every "MB"/"GB" string, convert_memory_size and create_test_file both fail or yield the same byte count. |
| LisSizes.ConvertOfMB | tempest/lis/manager.py:2051-2054 | convert_memory_size("<m>MB") is m·1024² bytes. |
| LisSizes.DynamicMemoryIntMatchesMB | tempest/lis/manager.py:2025-2036 | Passing m as an int to set_dynamic_memory sets the same bytes as passing "<m>MB", namely m·1024². |
| LisSizes.ResizeTarget | tempest/lis/manager.py:1702-1713 | A malformed size is a ValueError. A result means the action was grow, growfs or shrink. Any other action with a well-formed size raises "Disk resize action not recognized". |
| LisSizes.ResizeTargetOf | tempest/lis/manager.py:1705-1711 | For "<n>GB", grow and growfs target (n+1)·1024³ and shrink targets (n−1)·1024³. |
| LisSizes.ResizeGrow | tempest/lis/manager.py:1708-1709 | grow and growfs of "<n>GB" target (n+1)·1024³. |
| LisSizes.ResizeShrink | tempest/lis/manager.py:1710-1711 | shrink of "<n>GB" targets (n−1)·1024³. |
| LisSizes.ShrinkUndoesGrow | tempest/lis/manager.py:1708-1711 | Shrinking the grown size, written back in GB, returns to the original n·1024³. |
| LisSizes.ResizeDisk | tempest/lis/manager.py:1702-1729 | A failed default_vhd_path lookup, a malformed size or a bad action, a failed Resize-VHD and a failed Get-VHD each raise, in that order, with their own error. When Get-VHD reports exactly the target, the target is returned. A well-formed report of another size fails the assertion. A result always means all of this succeeded. |
| LisSizes.RamMegabytes | tempest/lis/manager.py:1994-2004 | The megabytes are the floor of the parsed byte count over 1024², and parsing fails exactly when long() does. |
| LisSizes.RamBytes | tempest/lis/manager.py:2018-2023 | The StartupBytes sent for m megabytes is a whole number of MiB, m of them. |
| LisSizes.RamSettingsRoundTrip | tempest/lis/manager.py:2018-2023 | Reading back a RAM size set in megabytes gives the same megabytes. |
| LisSizes.DiskNameLayout | tempest/lis/manager.py:1615-1656 | The add_disk name is `instance-ctrlType-ctrlId-ctrlLoc-vhdType.*`, and the add_diff_disk name is `instance-ctrlType-ctrlId-ctrlLoc-Diff.vhdType`. |
| LisSizes.DiskName | tempest/lis/manager.py:1615-1616 | The add_disk name. Its layout is DiskNameLayout and its uniqueness DiskNameInjective. |
| LisSizes.PassDiskName | tempest/lis/manager.py:1635-1636 | The add_pass_disk name: the add_disk name with PassThrough as the disk type. |
| LisSizes.DiffDiskName | tempest/lis/manager.py:1655-1656 | The add_diff_disk name, laid out as DiskNameLayout states. |
| LisSizes.DiskNameInjective | tempest/lis/manager.py:1615-1617 | Two disks on the same instance, controller type and disk type get the same name only at the same controller number and location. A remove_disk cleanup therefore names only its own disk, even when the instance name contains dashes. |
| LisSizes.IntToStringInjective | tempest/lis/manager.py:1615-1616 | Different controller numbers are written differently. |
| LisSizes.FamilyOf | tempest/lis/manager.py:2092-2104 | The first family (fedora, then debian, then suse) with a keyword in the lower-cased distribution string, and none exactly when no keyword occurs. |
| LisSizes.StressParameters | tempest/lis/manager.py:2090-2124 | An empty distribution raises. Threads are the maximum memory in 128 MB chunks. The duration is 9 s per thread with the long timeout exactly for fedora-family 6.x releases with x > 4, and otherwise 5 s with the default timeout. Fedora-family releases up to 6 are refused otherwise, and later ones get the defaults. Debian-family guests are refused exactly when the version mentions "12" or the name mentions debian. Other guests get the defaults. |
| Text.ParseInt | tempest/lis/manager.py:1706 | long() of a malformed string raises ValueError naming that string. |
| Text.ParseIntToString | tempest/lis/manager.py:2002-2003 | long(str(n)) == n. |
| Text.RemoveAllAppended | tempest/lis/manager.py:1921 | replace(unit, '') on a number followed by the unit gives the number back. |
| Text.RStrip | tempest/lis/manager.py:1916 | rstrip keeps the longest prefix that does not end in whitespace, and everything it cuts is whitespace. |

## Left out

- Remote clients. The compute, network, volume, image and object REST clients, the SSH client and the PowerShell/WinRM client are not modelled. Their answers are parameters of the members that use them.
- convert_memory_size, "%" branch. It multiplies a float percentage by the host's free memory, which is a host query. The model returns `HostRelative(memory)` without computing bytes.
- Scenario.ServerAndVolumeTeardown: runs one scenario in which the boot, the volume create, its status wait and its show all succeed; only the answers given while draining vary. A failed create registers nothing, as the CreateServer and CreateVolume rows state.
- Candidate CIDRs. The netaddr enumeration of the tenant range and `valid_ipv4` are inputs: the candidate list and an IPv4 predicate.
- Text.ParseInt: models long() as an optional sign followed by decimal digits. Surrounding whitespace and the other spellings long() accepts are not modelled.
- Text.Lower: lower-cases ASCII letters only, as Python 2 does for byte strings in the C locale.
- Selection.NodeStateTimeout: call_until_true is modelled as a finite list of polls, each get_node answer or its error. The clock, timeout and interval are not modelled.
- LisSizes.StressParameters, LisSizes.RamMegabytes: take the distribution string and the PowerShell output as plain values. A failure of get_os_type or of get_powershell_cmd_attribute, which would propagate unchanged, is not modelled.
- Scenario.TestCase.constructor: starts `disks` empty. manager.py never initialises `self.disks` itself; it only appends to it (1618, 1638, 1658), so the model assumes a subclass has set it to an empty list.
- create_server: the keypair, the security groups, the vnic port creation, the tenant-network lookup and compute.create_test_server are left out. The model starts from the boot's result.
- Scenario.TestCase.CreateVolume: the create arguments and random names are not modelled. The status wait and the show are inputs.
- Scenario.TestCase.AddDisk: the PowerShell script arguments (disk type, sector size, disk size) are not modelled. Only the attach outcome is used.
- The other factories are not part of this model: keypairs, images, snapshots, networks, ports, routers, floating IPs and object storage.
- Also not part of this model: the one-line PowerShell wrappers of LisBase (KVP, NMI, integration services, snapshots, heartbeat) and wait_provisioning_state / wait_power_state, which only call _node_state_timeout.
- The ScenarioTest (nova-network) _create_loginable_secgroup_rule is not part of this model. Only the Neutron variant is modelled.
- The unittest base class is not part of this model. Its setUp, addCleanup and doCleanups are modelled by their contract: a stack drained newest first, each error recorded and the next entry still run.
- Exception messages are not modelled beyond the constant texts the code checks or raises.
- Callables are modelled by name. Bound methods such as `subnet.delete` are written as a name and the resource id.
