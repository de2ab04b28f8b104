/** LoginScreen.tsx: the PIN field, its error message and the guarded submit. */
module Login {
  import opened Wrappers

  const IncorrectCodeMessage: string := "Código de acceso incorrecto. Intente de nuevo."

  /** `disabled={isLoading || !!error}` */
  predicate SubmitDisabled(isLoading: bool, error: Option<string>)
  {
    isLoading || Truthy(error)
  }

  class LoginScreen {
    var pin: string
    var loginError: string

    constructor()
      ensures pin == "" && loginError == ""
    {
      pin := "";
      loginError := "";
    }

    /** The PIN input's `onChange`: the PIN takes the typed value and any error is cleared. */
    method HandlePinChange(value: string)
      modifies this
      ensures pin == value && loginError == ""
    {
      pin := value;
      if loginError != "" {
        loginError := "";
      }
    }

    /**
     * `handleSubmit`. `onLogin` is called, with the current PIN, exactly
     * when the button is enabled; the call it made is returned. A falsy
     * role sets the error message and clears the PIN; a role leaves both.
     */
    method HandleSubmit(onLogin: string -> Option<string>, isLoading: bool, error: Option<string>)
      returns (loginCall: Option<string>)
      modifies this
      ensures loginCall.None? <==> SubmitDisabled(isLoading, error)
      ensures loginCall.Some? ==> loginCall.value == old(pin)
      ensures SubmitDisabled(isLoading, error) ==> pin == old(pin) && loginError == old(loginError)
      ensures !SubmitDisabled(isLoading, error) && !Truthy(onLogin(old(pin))) ==>
        pin == "" && loginError == IncorrectCodeMessage
      ensures !SubmitDisabled(isLoading, error) && Truthy(onLogin(old(pin))) ==>
        pin == old(pin) && loginError == old(loginError)
    {
      if isLoading || (error.Some? && error.value != "") {
        return None;
      }
      loginCall := Some(pin);
      var role := onLogin(pin);
      if !Truthy(role) {
        loginError := IncorrectCodeMessage;
        pin := "";
      }
    }
  }
}
