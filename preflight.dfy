/**
 * The environment checks `main` makes before looking for processes: the
 * machine architecture and the System Integrity Protection status, each as
 * the trimmed output of the command that reports it.
 */
module Preflight {

  const RequiredArch: string := "arm64"
  const SipEnabledStatus: string := "System Integrity Protection status: enabled."
  const SipDisabledStatus: string := "System Integrity Protection status: disabled."

  datatype Sip = SipEnabled | SipDisabled | SipUnknown

  /** The three-way reading of the `csrutil status` line: anything but the two exact lines is unknown. */
  function ClassifySip(status: string): (s: Sip)
    ensures s == SipEnabled <==> status == SipEnabledStatus
    ensures s == SipDisabled <==> status == SipDisabledStatus
  {
    if status == SipEnabledStatus then SipEnabled
    else if status == SipDisabledStatus then SipDisabled
    else SipUnknown
  }

  datatype Verdict =
    | Exit(code: int)                  // a diagnostic, then sys.exit(code)
    | Proceed(warnSipUnknown: bool)    // go on, after a warning when SIP's state could not be read

  /**
   * Wrong architecture or SIP enabled stops the run with status 1; an
   * unrecognised SIP status only warns.
   */
  function CheckEnvironment(arch: string, csrStatus: string): (v: Verdict)
    ensures v.Exit? ==> v.code == 1
    ensures v.Proceed? <==> arch == RequiredArch && csrStatus != SipEnabledStatus
    ensures v.Proceed? ==> (v.warnSipUnknown <==> csrStatus != SipDisabledStatus)
  {
    if arch != RequiredArch then Exit(1)
    else
      match ClassifySip(csrStatus)
      case SipEnabled => Exit(1)
      case SipDisabled => Proceed(false)
      case SipUnknown => Proceed(true)
  }
}
