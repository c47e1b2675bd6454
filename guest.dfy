/** What the launcher asks of the guest runtime and of the mods device,
    recorded as a log of calls in the order they are issued. */
module Guest {

  /** File contents, as the `Uint8Array`s handed to the device. */
  type Bytes = seq<bv8>

  datatype Call =
    /** `/bin/mkdir -p path` run in the guest. */
    | Mkdir(path: string)
    /** `writeFile` on the mods device, at a path relative to its mount point. */
    | WriteFile(devicePath: string, content: Bytes)
    /** `writeFile` on the guest filesystem itself. */
    | GuestWrite(path: string, content: Bytes)
    /** Background start of an engine executable with `DISPLAY=:0`. */
    | Launch(executable: string)
    /** `/bin/kill pid` run in the guest. */
    | Kill(pid: int)
    /** `/bin/ls -F path` run in the guest. */
    | ListDir(path: string)
}
